/** Runs of the sync engine: foreign commits, polls, full builds, retirements and wipes in any order,
    and what holds after every one of them. */
module SyncRuns {
  import opened Wrappers
  import opened Index
  import opened LivePools
  import opened SyncEngine
  import opened SyncTables
  import opened SyncRounds

  datatype Sys = Sys(e: Engine, src: Source)

  datatype Action = Commit | Polled(r: Round) | Rebuilt(full: FullRound) | Retired | Wiped

  /** One action. Commits may also land while a poll or a build is under way. */
  ghost predicate Next(s: Sys, a: Action, s': Sys) {
    && SourceOk(s'.src) && Grown(s.src, s'.src)
    && match a
       case Commit => s'.e == s.e
       case Polled(r) => Sees(s.src, s'.src, r.files) && s'.e == Poll(s.e, r)
       case Rebuilt(r) => Sees(s.src, s'.src, r.files) && s'.e == FullSync(s.e, r)
       case Retired => s'.e == s.e.(stopped := true) && s'.src == s.src
       case Wiped => s.e.stopped && s'.e == s.e.(store := EMPTY_STORE) && s'.src == s.src
  }

  ghost predicate Run(states: seq<Sys>, actions: seq<Action>) {
    |states| == |actions| + 1 && forall i :: 0 <= i < |actions| ==> Next(states[i], actions[i], states[i + 1])
  }

  // ---- prefix safety over runs -------------------------------------------------------------

  /** The ordinary rows stored of a table are, once each and in order, those at or below its mark. */
  ghost predicate EntryOk(e: Engine, rows: seq<Row>, t: TableId) {
    && MarkFits(e.store, rows, t)
    && OrdinaryRecords(HeldOf(e.store, t)) == ToRecords(Ordinary(Upto(rows, MarkOf(e.store, t))), e.wxid)
  }

  ghost predicate SysOk(s: Sys) {
    && SourceOk(s.src)
    && (s.e.stopped || s.e.store.myWxid == s.e.wxid)
    && (forall t :: EntryOk(s.e, RowsOf(s.src, t), t))
  }

  lemma EntriesFit(s: Sys)
    requires SysOk(s)
    ensures MarksFit(s.e.store, s.src)
  {
    forall t ensures MarkFits(s.e.store, RowsOf(s.src, t), t) {
      assert EntryOk(s.e, RowsOf(s.src, t), t);
    }
  }

  lemma MovedKeepsEntry(e: Engine, e': Engine, rows: seq<Row>, t: TableId)
    requires Ascending(rows) && EntryOk(e, rows, t) && Moved(e, e', rows, t)
    requires e'.wxid == e.wxid == e.store.myWxid
    ensures EntryOk(e', rows, t)
  {
    var n, m := Position(rows, MarkOf(e.store, t)), Position(rows, MarkOf(e'.store, t));
    PositionOfMark(rows, n);
    PositionOfMark(rows, m);
    var new' := Ordinary(rows[n..m]);
    OrdinaryRecordsOf(HeldOf(e.store, t), new', e.wxid);
    OrdinaryTwice(rows[n..m]);
    assert rows[..n] + rows[n..m] == rows[..m];
    OrdinaryConcat(rows[..n], rows[n..m]);
    ToRecordsConcat(Ordinary(rows[..n]), new', e.wxid);
  }

  lemma {:induction false} OrdinaryTwice(rows: seq<Row>)
    ensures Ordinary(Ordinary(rows)) == Ordinary(rows)
  {
    if rows != [] {
      OrdinaryTwice(rows[..|rows| - 1]);
      OrdinarySnoc(Ordinary(rows[..|rows| - 1]), rows[|rows| - 1]);
    }
  }

  lemma ToRecordsConcat(a: seq<Row>, b: seq<Row>, me: string)
    ensures ToRecords(a + b, me) == ToRecords(a, me) + ToRecords(b, me)
  {
  }

  lemma EntryStaysOk(e: Engine, rows: seq<Row>, more: seq<Row>, t: TableId)
    requires Ascending(more) && rows <= more && EntryOk(e, rows, t)
    ensures EntryOk(e, more, t)
  {
    MarkStillFits(e.store, rows, more, t);
  }

  lemma EmptyEntryOk(e: Engine, rows: seq<Row>, t: TableId)
    requires Ascending(rows) && t !in e.store.held && t !in e.store.watermarks
    ensures EntryOk(e, rows, t)
  {
    PositionOfMark(rows, 0);
    assert ToRecords([], e.wxid) == [];
  }

  lemma NextKeepsEntry(s: Sys, a: Action, s': Sys, t: TableId)
    requires SysOk(s) && Next(s, a, s')
    ensures EntryOk(s'.e, RowsOf(s'.src, t), t)
  {
    var rows := RowsOf(s'.src, t);
    assert EntryOk(s.e, RowsOf(s.src, t), t);
    EntryStaysOk(s.e, RowsOf(s.src, t), rows, t);
    match a
    case Polled(r) =>
      EntriesFit(s);
      PollMovesEveryTable(s.e, r, s.src, s'.src, t);
      PollApplies(s.e, r);
      if !s.e.stopped {
        MovedKeepsEntry(s.e, s'.e, rows, t);
      }
    case Rebuilt(r) =>
      FullSyncLoads(s.e, r, s.src, s'.src, t);
      FullSyncOwner(s.e, r);
      if !s.e.stopped && !r.retired {
        LoadedIsOk(s'.e, RowsOf(s.src, t), rows, t);
      }
    case Wiped =>
      EmptyEntryOk(s'.e, rows, t);
    case _ =>
  }

  /** Under any interleaving of commits, capped or failing polls, builds, retirements and wipes, every
      table's stored ordinary rows are exactly those at or below its watermark. */
  lemma {:induction false} EveryRunIsConsistent(states: seq<Sys>, actions: seq<Action>, i: nat)
    requires Run(states, actions) && SysOk(states[0]) && i < |states|
    ensures SysOk(states[i])
  {
    if i > 0 {
      EveryRunIsConsistent(states, actions, i - 1);
      var s, a, s' := states[i - 1], actions[i - 1], states[i];
      forall t ensures EntryOk(s'.e, RowsOf(s'.src, t), t) {
        NextKeepsEntry(s, a, s', t);
      }
      if a.Polled? {
        PollApplies(s.e, a.r);
      }
      if a.Rebuilt? {
        FullSyncOwner(s.e, a.full);
      }
    }
  }

  /** Between two engines the table's announcements grew by the incoming ordinary rows between the
      two watermarks, and by the revocations between them, each in order. */
  ghost predicate AnnouncedBetween(e: Engine, e': Engine, rows: seq<Row>, t: TableId) {
    var n, m := Position(rows, MarkOf(e.store, t)), Position(rows, MarkOf(e'.store, t));
    && n <= m
    && MarkFits(e.store, rows, t)
    && MarkFits(e'.store, rows, t)
    && Announced(e'.log, t) == Announced(e.log, t) + Incoming(Ordinary(rows[n..m]), e.wxid)
    && Revoked(e'.log, t) == Revoked(e.log, t) + Revocations(rows[n..m])
  }

  lemma AnnouncedSame(e: Engine, rows: seq<Row>, t: TableId)
    requires MarkFits(e.store, rows, t)
    ensures AnnouncedBetween(e, e, rows, t)
  {
    var n := Position(rows, MarkOf(e.store, t));
    assert rows[n..n] == [];
  }

  lemma AnnouncedStill(e: Engine, e': Engine, rows: seq<Row>, more: seq<Row>, t: TableId)
    requires Ascending(more) && rows <= more && AnnouncedBetween(e, e', rows, t)
    ensures AnnouncedBetween(e, e', more, t)
  {
    MarkStillFits(e.store, rows, more, t);
    MarkStillFits(e'.store, rows, more, t);
    var n, m := Position(rows, MarkOf(e.store, t)), Position(rows, MarkOf(e'.store, t));
    assert rows[n..m] == more[n..m];
  }

  lemma AnnouncedFurther(e: Engine, e': Engine, e'': Engine, rows: seq<Row>, t: TableId)
    requires AnnouncedBetween(e, e', rows, t) && Moved(e', e'', rows, t) && e'.store.myWxid == e.wxid
    ensures AnnouncedBetween(e, e'', rows, t)
  {
    var n, k := Position(rows, MarkOf(e.store, t)), Position(rows, MarkOf(e'.store, t));
    var m := Position(rows, MarkOf(e''.store, t));
    IncomingSplits(rows, n, k, m, e.wxid);
    Associates(Announced(e.log, t), Incoming(Ordinary(rows[n..k]), e.wxid), Incoming(Ordinary(rows[k..m]), e.wxid));
    assert rows[n..k] + rows[k..m] == rows[n..m];
    RevocationsConcat(rows[n..k], rows[k..m]);
    Associates(Revoked(e.log, t), Revocations(rows[n..k]), Revocations(rows[k..m]));
  }

  lemma Associates(a: seq<Row>, b: seq<Row>, c: seq<Row>)
    ensures (a + b) + c == a + (b + c)
  {
  }

  lemma IncomingSplits(rows: seq<Row>, n: nat, k: nat, m: nat, me: string)
    requires n <= k <= m <= |rows|
    ensures Incoming(Ordinary(rows[n..m]), me) == Incoming(Ordinary(rows[n..k]), me) + Incoming(Ordinary(rows[k..m]), me)
  {
    assert rows[n..k] + rows[k..m] == rows[n..m];
    OrdinaryConcat(rows[n..k], rows[k..m]);
    IncomingConcat(Ordinary(rows[n..k]), Ordinary(rows[k..m]), me);
  }

  /** Over a run of commits and polls, the rows announced of a table are, once each and in order, the
      incoming ordinary rows between the first watermark and the last; and the revocations announced are
      those between the two. */
  lemma {:induction false} EveryRowIsAnnouncedOnce(states: seq<Sys>, actions: seq<Action>, i: nat, t: TableId)
    requires Run(states, actions) && SysOk(states[0]) && i < |states|
    requires forall a :: a in actions ==> a.Commit? || a.Polled?
    ensures states[i].e.wxid == states[0].e.wxid
    ensures AnnouncedBetween(states[0].e, states[i].e, RowsOf(states[i].src, t), t)
  {
    hide AnnouncedBetween, SysOk, RowsOf, Next;
    if i == 0 {
      EntriesFit(states[0]);
      AnnouncedSame(states[0].e, RowsOf(states[0].src, t), t);
    } else {
      EveryRowIsAnnouncedOnce(states, actions, i - 1, t);
      EveryRunIsConsistent(states, actions, i - 1);
      assert actions[i - 1] in actions && Next(states[i - 1], actions[i - 1], states[i]);
      AnnouncedStep(states[0].e, states[i - 1], actions[i - 1], states[i], t);
    }
  }

  lemma AnnouncedStep(first: Engine, s: Sys, a: Action, s': Sys, t: TableId)
    requires Next(s, a, s') && SysOk(s) && (a.Commit? || a.Polled?) && s.e.wxid == first.wxid
    requires AnnouncedBetween(first, s.e, RowsOf(s.src, t), t)
    ensures s'.e.wxid == first.wxid && AnnouncedBetween(first, s'.e, RowsOf(s'.src, t), t)
  {
    assert Ascending(RowsOf(s'.src, t)) && RowsOf(s.src, t) <= RowsOf(s'.src, t);
    EntriesFit(s);
    assert s.e.stopped || s.e.store.myWxid == s.e.wxid;
    hide AnnouncedBetween, SysOk, RowsOf, MarksFit, Moved;
    AnnouncedStill(first, s.e, RowsOf(s.src, t), RowsOf(s'.src, t), t);
    if a.Polled? && !s.e.stopped {
      PollApplies(s.e, a.r);
      PollMovesEveryTable(s.e, a.r, s.src, s'.src, t);
      AnnouncedFurther(first, s.e, s'.e, RowsOf(s'.src, t), t);
    }
  }

  lemma {:induction false} IncomingConcat(a: seq<Row>, b: seq<Row>, me: string)
    ensures Incoming(a + b, me) == Incoming(a, me) + Incoming(b, me)
  {
    if b == [] {
      assert a + b == a;
    } else {
      assert (a + b)[..|a + b| - 1] == a + b[..|b| - 1];
      IncomingConcat(a, b[..|b| - 1], me);
    }
  }

  lemma {:induction false} RevocationsConcat(a: seq<Row>, b: seq<Row>)
    ensures Revocations(a + b) == Revocations(a) + Revocations(b)
  {
    if b == [] {
      assert a + b == a;
    } else {
      assert (a + b)[..|a + b| - 1] == a + b[..|b| - 1];
      RevocationsConcat(a, b[..|b| - 1]);
    }
  }

  // ---- the full build ------------------------------------------------------------------------

  /** A table in a store under construction: not loaded yet, or loaded as some page saw it. */
  ghost predicate LoadedEntry(store: Store, low: seq<Row>, high: seq<Row>, t: TableId) {
    var n := |HeldOf(store, t)|;
    && n <= |high|
    && HeldOf(store, t) == ToRecords(high[..n], store.myWxid)
    && MarkOf(store, t) == MarkAt(high, n)
    && (t in store.held <==> t in store.watermarks)
    && (t in store.held ==> |low| <= n)
  }

  lemma LoadTablesOneMore(store: Store, f: FileRound, k: nat)
    requires 0 < k <= |f.tables|
    ensures
      var x, init := f.tables[k - 1], LoadTables(store, f, f.tables[..k - 1]);
      && f.tables[..k] == f.tables[..k - 1] + [x]
      && LoadTables(store, f, f.tables[..k])
         == if f.page(x, 0).Some? then Loaded(init, TableId(f.rel, x), f.page(x, 0).value) else init
  {
    assert f.tables[..k][..k - 1] == f.tables[..k - 1];
  }

  lemma {:induction false} LoadTablesLoads(store: Store, f: FileRound, k: nat, before: Source, after: Source, t: TableId)
    requires SourceOk(after) && FileSees(before, after, f) && k <= |f.tables|
    requires LoadedEntry(store, RowsOf(before, t), RowsOf(after, t), t)
    requires t.rel == f.rel ==> t !in store.held
    ensures
      var loaded := LoadTables(store, f, f.tables[..k]);
      && loaded.myWxid == store.myWxid
      && LoadedEntry(loaded, RowsOf(before, t), RowsOf(after, t), t)
      && (t in loaded.held <==> t in store.held || (t.rel == f.rel && t.table in f.tables[..k] && f.page(t.table, 0).Some?))
  {
    if k > 0 {
      LoadTablesLoads(store, f, k - 1, before, after, t);
      LoadTablesOneMore(store, f, k);
      var x, init := f.tables[k - 1], LoadTables(store, f, f.tables[..k - 1]);
      if f.page(x, 0).Some? {
        if t == TableId(f.rel, x) {
          assert x !in f.tables[..k - 1];
          hide LoadTables, Ascending, LoadedEntry;
          LoadedFirst(init, RowsOf(before, t), f.page(x, 0).value, RowsOf(after, t), t);
        } else {
          hide LoadTables, Ascending, LoadedEntry, FileSees, SourceOk;
          LoadedOther(init, TableId(f.rel, x), f.page(x, 0).value, RowsOf(before, t), RowsOf(after, t), t);
        }
      }
    }
  }

  lemma LoadedOther(store: Store, u: TableId, view: seq<Row>, low: seq<Row>, high: seq<Row>, t: TableId)
    requires t != u && LoadedEntry(store, low, high, t)
    ensures LoadedEntry(Loaded(store, u, view), low, high, t)
    ensures Loaded(store, u, view).myWxid == store.myWxid
    ensures t in Loaded(store, u, view).held <==> t in store.held
  {
  }

  lemma LoadedFirst(store: Store, low: seq<Row>, view: seq<Row>, high: seq<Row>, t: TableId)
    requires Ascending(high) && low <= view <= high && t !in store.held && LoadedEntry(store, low, high, t)
    ensures LoadedEntry(Loaded(store, t, view), low, high, t)
  {
    assert view == high[..|view|];
    MaxKeyOfAscending(high, |view|);
    assert HeldOf(store, t) == [];
    assert HeldOf(Loaded(store, t, view), t) == ToRecords(view, store.myWxid);
    assert MaxWatermark(ZERO, MarkAt(high, |view|)) == MarkAt(high, |view|);
  }

  /** A file whose tables the build can read. */
  predicate Readable(pool: PoolState, f: FileRound) {
    f.key.Some? && GetOrOpen(pool, f.rel, f.key.value, f.opening).1 == Connected
  }

  predicate ReadsTable(pool: PoolState, f: FileRound, t: TableId) {
    f.rel == t.rel && Readable(pool, f) && t.table in f.tables && f.page(t.table, 0).Some?
  }

  /** Trying one file leaves another as readable as it was. */
  lemma StillReadsTable(pool: PoolState, f: FileRound, g: FileRound, t: TableId)
    requires f.key.Some? && f.rel != g.rel && ReadsTable(pool, g, t)
    ensures ReadsTable(GetOrOpen(pool, f.rel, f.key.value, f.opening).0, g, t)
  {
    AcquireFrame(pool, f.rel, f.key.value, f.opening, g.rel);
  }

  lemma {:induction false} LoadFilesLoads(store: Store, pool: PoolState, files: seq<FileRound>, before: Source, after: Source, t: TableId)
    requires SourceOk(after) && Sees(before, after, files)
    requires LoadedEntry(store, RowsOf(before, t), RowsOf(after, t), t)
    requires t in store.held ==> forall i :: 0 <= i < |files| ==> files[i].rel != t.rel
    ensures
      var loaded := LoadFiles(store, pool, files).0;
      && loaded.myWxid == store.myWxid
      && LoadedEntry(loaded, RowsOf(before, t), RowsOf(after, t), t)
      && (t in store.held ==> t in loaded.held)
      && (forall i :: 0 <= i < |files| && ReadsTable(pool, files[i], t) ==> t in loaded.held)
    decreases |files|
  {
    if files != [] {
      var f, rest := files[0], files[1..];
      assert forall i :: 0 <= i < |rest| ==> rest[i] == files[i + 1];
      if f.key.None? {
        LoadFilesLoads(store, pool, rest, before, after, t);
      } else {
        var (tried, got) := GetOrOpen(pool, f.rel, f.key.value, f.opening);
        var next := if got == Connected then LoadTables(store, f, f.tables) else store;
        assert f.tables[..|f.tables|] == f.tables;
        LoadTablesLoads(store, f, |f.tables|, before, after, t);
        LoadFilesLoads(next, tried, rest, before, after, t);
        forall i | 0 < i < |files| && ReadsTable(pool, files[i], t)
          ensures ReadsTable(tried, rest[i - 1], t)
        {
          StillReadsTable(pool, f, files[i], t);
        }
      }
    }
  }

  lemma FullSyncLoads(e: Engine, r: FullRound, before: Source, after: Source, t: TableId)
    requires SourceOk(after) && Sees(before, after, r.files)
    ensures !e.stopped && !r.retired ==> LoadedEntry(FullSync(e, r).store, RowsOf(before, t), RowsOf(after, t), t)
    ensures e.stopped || r.retired ==> FullSync(e, r).store == e.store && FullSync(e, r).stopped
    ensures !e.stopped && !r.retired && r.sections ==>
              forall i :: 0 <= i < |r.files| && ReadsTable(e.pool, r.files[i], t) ==> t in FullSync(e, r).store.held
  {
    var start := Store(e.wxid, map[], map[]);
    assert ToRecords(RowsOf(after, t)[..0], e.wxid) == [];
    LoadFilesLoads(start, e.pool, r.files, before, after, t);
  }

  lemma {:induction false} LoadFilesOwner(store: Store, pool: PoolState, files: seq<FileRound>)
    ensures LoadFiles(store, pool, files).0.myWxid == store.myWxid
    decreases |files|
  {
    if files != [] {
      var f := files[0];
      if f.key.None? {
        LoadFilesOwner(store, pool, files[1..]);
      } else {
        var (tried, got) := GetOrOpen(pool, f.rel, f.key.value, f.opening);
        LoadTablesOwner(store, f, f.tables);
        LoadFilesOwner(if got == Connected then LoadTables(store, f, f.tables) else store, tried, files[1..]);
      }
    }
  }

  lemma {:induction false} LoadTablesOwner(store: Store, f: FileRound, tables: seq<string>)
    ensures LoadTables(store, f, tables).myWxid == store.myWxid
  {
    if tables != [] {
      LoadTablesOwner(store, f, tables[..|tables| - 1]);
    }
  }

  lemma FullSyncOwner(e: Engine, r: FullRound)
    ensures FullSync(e, r).wxid == e.wxid
    ensures FullSync(e, r).stopped || FullSync(e, r).store.myWxid == e.wxid
  {
    LoadFilesOwner(Store(e.wxid, map[], map[]), e.pool, r.files);
  }

  lemma LoadedIsOk(e: Engine, low: seq<Row>, high: seq<Row>, t: TableId)
    requires Ascending(high) && LoadedEntry(e.store, low, high, t) && e.store.myWxid == e.wxid
    ensures EntryOk(e, high, t)
  {
    var n := |HeldOf(e.store, t)|;
    PositionOfMark(high, n);
    OrdinaryRecordsOf([], high[..n], e.wxid);
    assert [] + ToRecords(high[..n], e.wxid) == HeldOf(e.store, t);
    assert [] + ToRecords(Ordinary(high[..n]), e.wxid) == ToRecords(Ordinary(high[..n]), e.wxid);
  }

  /** A run may begin after any full build: it establishes what every later step keeps, whatever the
      engine held before and whatever was committed during the build. */
  lemma BuildStartsConsistent(e: Engine, r: FullRound, before: Source, after: Source)
    requires !e.stopped && !r.retired && SourceOk(after) && Sees(before, after, r.files)
    ensures SysOk(Sys(FullSync(e, r), after))
  {
    FullSyncOwner(e, r);
    forall t ensures EntryOk(FullSync(e, r), RowsOf(after, t), t) {
      FullSyncLoads(e, r, before, after, t);
      LoadedIsOk(FullSync(e, r), RowsOf(before, t), RowsOf(after, t), t);
    }
  }

  // ---- agreement with a fresh build --------------------------------------------------------------

  /** A build from nothing that reads every table of a source that stands still. */
  ghost predicate CompleteBuild(e: Engine, r: FullRound, src: Source) {
    && !e.stopped && !r.retired && r.sections && Sees(src, src, r.files)
    && forall t :: RowsOf(src, t) != [] ==>
         exists i :: 0 <= i < |r.files| && ReadsTable(e.pool, r.files[i], t)
  }

  /** The build holds every row of every table, and its watermark is the last key. */
  lemma CompleteBuildHoldsEverything(fresh': Engine, r: FullRound, src: Source, t: TableId)
    requires SourceOk(src) && CompleteBuild(fresh', r, src)
    ensures
      var built := FullSync(fresh', r);
      && HeldOf(built.store, t) == ToRecords(RowsOf(src, t), fresh'.wxid)
      && MarkOf(built.store, t) == MarkAt(RowsOf(src, t), |RowsOf(src, t)|)
  {
    FullSyncLoads(fresh', r, src, src, t);
    FullSyncOwner(fresh', r);
    var rows := RowsOf(src, t);
    assert rows[..|rows|] == rows;
  }

  /** Once a table is caught up, after any history, its watermark and its ordinary rows are those a
      fresh full build reads from the same source. */
  lemma CaughtUpEqualsRebuild(states: seq<Sys>, actions: seq<Action>, fresh': Engine, r: FullRound, t: TableId)
    requires Run(states, actions) && SysOk(states[0])
    requires
      var s := states[|actions|];
      && Backlog(s.e.store, s.src, t) == 0
      && fresh'.wxid == s.e.wxid && CompleteBuild(fresh', r, s.src)
    ensures
      var s, built := states[|actions|], FullSync(fresh', r);
      && MarkOf(s.e.store, t) == MarkOf(built.store, t)
      && OrdinaryRecords(HeldOf(s.e.store, t)) == OrdinaryRecords(HeldOf(built.store, t))
  {
    EveryRunIsConsistent(states, actions, |actions|);
    var s := states[|actions|];
    assert EntryOk(s.e, RowsOf(s.src, t), t);
    CaughtUpEntry(s.e, RowsOf(s.src, t), t);
    CompleteBuildHoldsEverything(fresh', r, s.src, t);
    RebuiltOrdinary(RowsOf(s.src, t), s.e.wxid);
  }

  lemma CaughtUpEntry(e: Engine, rows: seq<Row>, t: TableId)
    requires Ascending(rows) && EntryOk(e, rows, t) && |Above(rows, MarkOf(e.store, t))| == 0
    ensures MarkOf(e.store, t) == MarkAt(rows, |rows|)
    ensures OrdinaryRecords(HeldOf(e.store, t)) == ToRecords(Ordinary(rows), e.wxid)
  {
    PositionOfMark(rows, Position(rows, MarkOf(e.store, t)));
    assert rows[..|rows|] == rows;
  }

  lemma RebuiltOrdinary(rows: seq<Row>, me: string)
    ensures OrdinaryRecords(ToRecords(rows, me)) == ToRecords(Ordinary(rows), me)
  {
    OrdinaryRecordsOf([], rows, me);
    assert [] + ToRecords(rows, me) == ToRecords(rows, me);
    assert [] + ToRecords(Ordinary(rows), me) == ToRecords(Ordinary(rows), me);
  }

  /** System rows are where the two part: a poll that brings a table from one complete reading to the
      next leaves the rows a rebuild would hold exactly when it read no system row of that table. */
  lemma PollEqualsRebuildIffNoSystemRow(e: Engine, r: Round, before: Source, after: Source, t: TableId)
    requires SourceOk(after) && Grown(before, after) && MarksFit(e.store, before) && Sees(before, after, r.files)
    requires HeldOf(e.store, t) == ToRecords(Upto(RowsOf(after, t), MarkOf(e.store, t)), e.store.myWxid)
    ensures
      var e' := Poll(e, r);
      (HeldOf(e'.store, t) == ToRecords(Upto(RowsOf(after, t), MarkOf(e'.store, t)), e.store.myWxid))
      <==> forall row :: row in Of(Applied(e, r), t) ==> !IsSystem(row)
  {
    var rows, me := RowsOf(after, t), e.store.myWxid;
    PollMovesEveryTable(e, r, before, after, t);
    MarkStillFits(e.store, RowsOf(before, t), rows, t);
    var n, m := Position(rows, MarkOf(e.store, t)), Position(rows, MarkOf(Poll(e, r).store, t));
    PositionOfMark(rows, n);
    PositionOfMark(rows, m);
    PollReadsSlice(e, r, before, after, t);
    HeldIffOrdinary(rows, n, m, me);
  }

  lemma HeldIffOrdinary(rows: seq<Row>, n: nat, m: nat, me: string)
    requires n <= m <= |rows|
    ensures
      ToRecords(rows[..n], me) + ToRecords(Ordinary(rows[n..m]), me) == ToRecords(rows[..m], me)
      <==> forall row :: row in rows[n..m] ==> !IsSystem(row)
  {
    var slice := rows[n..m];
    assert rows[..n] + slice == rows[..m];
    ToRecordsConcat(rows[..n], slice, me);
    OrdinaryShrinks(slice);
    assert |ToRecords(Ordinary(slice), me)| == |Ordinary(slice)|;
  }

  lemma PollReadsSlice(e: Engine, r: Round, before: Source, after: Source, t: TableId)
    requires SourceOk(after) && Grown(before, after) && MarksFit(e.store, before) && Sees(before, after, r.files)
    ensures
      var rows := RowsOf(after, t);
      var n, m := Position(rows, MarkOf(e.store, t)), Position(rows, MarkOf(Poll(e, r).store, t));
      n <= m && Of(Applied(e, r), t) == rows[n..m]
  {
    hide Poll, SourceOk, Grown, MarksFit, Sees, RowsOf, Position, MarkOf, Moved, ReadFiles, Work;
    PollMovesEveryTable(e, r, before, after, t);
    if Applied(e, r) != [] {
      WorkSees(e, r.files, before, after);
      BatchIsSlice(e.store, e.pool, Work(e.pool, e.stamps, r.files), before, after, t);
    }
  }

  lemma {:induction false} OrdinaryShrinks(rows: seq<Row>)
    ensures |Ordinary(rows)| <= |rows|
    ensures |Ordinary(rows)| == |rows| <==> forall row :: row in rows ==> !IsSystem(row)
    ensures |Ordinary(rows)| == |rows| ==> Ordinary(rows) == rows
  {
    if rows != [] {
      var init, last := rows[..|rows| - 1], rows[|rows| - 1];
      OrdinaryShrinks(init);
      assert rows == init + [last];
    }
  }

  /** A source of one table that holds one row, with one file that can be opened and read. */
  function OneRowFile(row: Row): FileRound {
    FileRound("message_0.db", 0, Some("key"), None, Opens(None), ["msg"], (x, n) => Some([row]), 0, None)
  }

  function EmptyEngine(me: string): Engine {
    Engine(me, Store(me, map[], map[]), PoolState(map[], {}), map[], false, [])
  }

  /** From nothing, over one system row: a pass reads past it and holds nothing, a build holds it. */
  lemma SystemRowParts(row: Row, me: string)
    requires IsSystem(row) && Less(ZERO, row.key)
    ensures
      var t, f, e := TableId("message_0.db", "msg"), OneRowFile(row), EmptyEngine(me);
      var polled, built := Poll(e, Round([f], Never)), FullSync(e, FullRound([f], true, false));
      && MarkOf(polled.store, t) == MarkOf(built.store, t) == row.key
      && HeldOf(polled.store, t) == [] && HeldOf(built.store, t) == [ToRecord(row, me)]
  {
    OneRowPolled(row, me);
    OneRowBuilt(row, me);
  }

  lemma OneRowPolled(row: Row, me: string)
    requires IsSystem(row) && Less(ZERO, row.key)
    ensures
      var t, polled := TableId("message_0.db", "msg"), Poll(EmptyEngine(me), Round([OneRowFile(row)], Never));
      MarkOf(polled.store, t) == row.key && HeldOf(polled.store, t) == []
  {
    var t, f, e := TableId("message_0.db", "msg"), OneRowFile(row), EmptyEngine(me);
    OneRowRead(row, me);
    hide ReadFiles, OneRowFile, Account;
    var rows := [Tagged(t, row)];
    assert [f][..0] == [] && rows[..0] == [];
    assert Work(e.pool, e.stamps, [f]) == [f] by { OneRowChanged(row, me); }
    assert OrdinaryTags(rows) == [];
    assert MarksOf(rows) == [Mark(t, row.key)] && [Mark(t, row.key)][..0] == [];
  }

  lemma OneRowChanged(row: Row, me: string)
    ensures Changed(EmptyEngine(me).pool, EmptyEngine(me).stamps, OneRowFile(row))
  {
  }

  lemma OneRowRead(row: Row, me: string)
    requires Less(ZERO, row.key)
    ensures
      var batch := ReadFiles(EmptyEngine(me).store, EmptyEngine(me).pool, [OneRowFile(row)]).1;
      batch.Some? && batch.value.rows == [Tagged(TableId("message_0.db", "msg"), row)]
  {
    var t, f, e := TableId("message_0.db", "msg"), OneRowFile(row), EmptyEngine(me);
    assert [row][..0] == [] && ["msg"][1..] == [] && [f][1..] == [];
    assert Above([row], ZERO) == [row] && ReadNew([row], ZERO) == [row];
    assert DrainTable(f, "msg", ZERO, 0) == TableRead([row], true);
    assert Tag(t, [row]) == [Tagged(t, row)];
    assert DrainTables(e.store, f, []) == FileRead([], true);
    assert DrainTables(e.store, f, ["msg"]) == After(Tag(t, [row]), true, DrainTables(e.store, f, ["msg"][1..]));
    assert [Tagged(t, row)] + [] == [Tagged(t, row)];
    assert ReadFile(e.store, e.pool, f).1 == FileRead([Tagged(t, row)], true);
  }

  lemma OneRowBuilt(row: Row, me: string)
    requires Less(ZERO, row.key)
    ensures
      var t, built := TableId("message_0.db", "msg"), FullSync(EmptyEngine(me), FullRound([OneRowFile(row)], true, false));
      MarkOf(built.store, t) == row.key && HeldOf(built.store, t) == [ToRecord(row, me)]
  {
    var t, f := TableId("message_0.db", "msg"), OneRowFile(row);
    var src := Source(map[t := [row]], map[]);
    assert ReadsTable(EmptyEngine(me).pool, f, t);
    assert [f][0] == f;
    CompleteBuildHoldsEverything(EmptyEngine(me), FullRound([f], true, false), src, t);
  }
}
