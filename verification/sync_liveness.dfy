/** No change is swallowed: while a pass is atomic with respect to commits, an open file with unread
    rows always reads as changed, and once commits stop it is drained in a bounded number of rounds. */
module SyncLiveness {
  import opened Wrappers
  import opened Index
  import opened LivePools
  import opened SyncEngine
  import opened SyncTables
  import opened SyncRounds
  import opened SyncRuns

  function VersionOf(src: Source, rel: string): int {
    if rel in src.version then src.version[rel] else 0
  }

  predicate Answers(reading: Option<int>, src: Source, rel: string) {
    reading.None? || reading == Some(VersionOf(src, rel))
  }

  /** One file of a pass during which nothing commits: every reading that succeeds tells the present
      state, and the table listing is complete. */
  ghost predicate Truthful(src: Source, f: FileRound) {
    && Answers(f.probe, src, f.rel)
    && Answers(f.versionAfter, src, f.rel)
    && (f.opening.Opens? ==> Answers(f.opening.version, src, f.rel))
    && (forall t: TableId :: t.rel == f.rel && RowsOf(src, t) != [] ==> t.table in f.tables)
  }

  ghost predicate AtomicRound(src: Source, files: seq<FileRound>) {
    Sees(src, src, files) && forall i :: 0 <= i < |files| ==> Truthful(src, files[i])
  }

  /** A commit appends to tables and moves the commit counter of every file it touches. */
  ghost predicate Commits(src: Source, src': Source) {
    && SourceOk(src') && Grown(src, src')
    && (forall rel: string :: VersionOf(src, rel) <= VersionOf(src', rel))
    && (forall t: TableId :: RowsOf(src, t) != RowsOf(src', t) ==> VersionOf(src, t.rel) < VersionOf(src', t.rel))
  }

  ghost predicate AtomicNext(s: Sys, a: Action, s': Sys) {
    match a
    case Commit => Commits(s.src, s'.src) && s'.e == s.e
    case Polled(r) => s'.src == s.src && AtomicRound(s.src, r.files) && s'.e == Poll(s.e, r)
    case Retired => s'.src == s.src && s'.e == s.e.(stopped := true)
    case _ => false
  }

  ghost predicate AtomicRun(states: seq<Sys>, actions: seq<Action>) {
    |states| == |actions| + 1 && forall i :: 0 <= i < |actions| ==> AtomicNext(states[i], actions[i], states[i + 1])
  }

  /** The baseline of a file. */
  function BaselineOf(e: Engine, rel: string): Option<int>
    requires OpenIn(e.pool, rel)
  {
    e.pool.dbs[rel].baseline
  }

  /** An open file whose baseline, if it equals the present version, proves that nothing is unread. */
  ghost predicate Watched(s: Sys, rel: string) {
    && OpenIn(s.e.pool, rel)
    && (BaselineOf(s.e, rel).Some? ==> BaselineOf(s.e, rel).value <= VersionOf(s.src, rel))
    && (BaselineOf(s.e, rel) == Some(VersionOf(s.src, rel)) ==>
          forall t: TableId :: t.rel == rel ==> Backlog(s.e.store, s.src, t) == 0)
  }

  lemma NoRowsNoBacklog(store: Store, src: Source, t: TableId)
    requires RowsOf(src, t) == []
    ensures Backlog(store, src, t) == 0
  {
  }

  /** The backlog shrinks by exactly the rows a pass applied. */
  lemma BacklogAfterPoll(e: Engine, r: Round, src: Source, t: TableId)
    requires SourceOk(src) && MarksFit(e.store, src) && Sees(src, src, r.files)
    ensures Backlog(e.store, src, t) == Backlog(Poll(e, r).store, src, t) + |Of(Applied(e, r), t)|
    ensures MarkFits(Poll(e, r).store, RowsOf(src, t), t)
  {
    PollMovesEveryTable(e, r, src, src, t);
    UptoLength(RowsOf(src, t), MarkOf(e.store, t));
    UptoLength(RowsOf(src, t), MarkOf(Poll(e, r).store, t));
  }

  // ---- accounting -------------------------------------------------------------------------

  lemma {:induction false} AccountKeepsOthers(pool: PoolState, stamps: map<string, int>, work: seq<FileRound>, done: seq<string>, rel: string)
    requires rel !in done || Unlisted(rel, work)
    ensures SameEntry(Account(pool, stamps, work, done).0, pool, rel)
    decreases |work|
  {
    if work != [] {
      var f := work[0];
      assert f.rel == rel ==> rel !in done;
      assert forall i :: 0 <= i < |work[1..]| ==> work[1..][i] == work[i + 1];
      if f.rel in done {
        AccountKeepsOthers(Advance(pool, f.rel, f.versionAfter), stamps[f.rel := f.stampAfter], work[1..], done, rel);
      } else {
        AccountKeepsOthers(pool, stamps, work[1..], done, rel);
      }
    }
  }

  /** Accounting for a file read to its end moves its baseline to the version read after the pass. */
  lemma {:induction false} AccountAdvances(pool: PoolState, stamps: map<string, int>, work: seq<FileRound>, done: seq<string>, i: nat)
    requires OneEach(work) && i < |work| && work[i].rel in done && OpenIn(pool, work[i].rel)
    ensures
      var f, after := work[i], Account(pool, stamps, work, done).0;
      && OpenIn(after, f.rel)
      && after.dbs[f.rel].baseline == if f.versionAfter.None? then pool.dbs[f.rel].baseline else f.versionAfter
    decreases |work|
  {
    var f, rest := work[0], work[1..];
    assert forall j :: 0 <= j < |rest| ==> rest[j] == work[j + 1];
    if i == 0 {
      AccountKeepsOthers(Advance(pool, f.rel, f.versionAfter), stamps[f.rel := f.stampAfter], rest, done, f.rel);
    } else if f.rel in done {
      AccountAdvances(Advance(pool, f.rel, f.versionAfter), stamps[f.rel := f.stampAfter], rest, done, i - 1);
    } else {
      AccountAdvances(pool, stamps, rest, done, i - 1);
    }
  }

  /** After a build exactly the files that are open have a stamp, the one taken of them. */
  lemma {:induction false} SeedStampsOfOpen(pool: PoolState, files: seq<FileRound>)
    requires OneEach(files)
    ensures forall f :: f in files ==>
              (f.rel in SeedStamps(pool, files) <==> OpenIn(pool, f.rel))
              && (OpenIn(pool, f.rel) ==> SeedStamps(pool, files)[f.rel] == f.stampAfter)
    ensures forall rel :: rel in SeedStamps(pool, files) ==> !Unlisted(rel, files)
  {
    if files != [] {
      var init, last := files[..|files| - 1], files[|files| - 1];
      assert files == init + [last];
      SeedStampsOfOpen(pool, init);
      forall f | f in init ensures f.rel != last.rel {
        var i :| 0 <= i < |init| && init[i] == f;
        assert files[i] == f && files[|files| - 1] == last;
      }
      forall rel | rel in SeedStamps(pool, files) ensures !Unlisted(rel, files) {
        if rel == last.rel {
          assert files[|files| - 1].rel == rel;
        } else {
          assert rel in SeedStamps(pool, init);
          var i :| 0 <= i < |init| && init[i].rel == rel;
          assert files[i].rel == rel;
        }
      }
      assert Unlisted(last.rel, init) by {
        assert forall i :: 0 <= i < |init| ==> init[i] == files[i];
      }
    }
  }

  predicate SameStamp(a: map<string, int>, b: map<string, int>, rel: string) {
    (rel in a <==> rel in b) && (rel in a ==> a[rel] == b[rel])
  }

  lemma {:induction false} StampsOfOthers(pool: PoolState, stamps: map<string, int>, work: seq<FileRound>, done: seq<string>, rel: string)
    requires rel !in done || Unlisted(rel, work)
    ensures SameStamp(Account(pool, stamps, work, done).1, stamps, rel)
    decreases |work|
  {
    if work != [] {
      var f := work[0];
      assert f.rel == rel ==> rel !in done;
      assert forall i :: 0 <= i < |work[1..]| ==> work[1..][i] == work[i + 1];
      if f.rel in done {
        StampsOfOthers(Advance(pool, f.rel, f.versionAfter), stamps[f.rel := f.stampAfter], work[1..], done, rel);
      } else {
        StampsOfOthers(pool, stamps, work[1..], done, rel);
      }
    }
  }

  lemma {:induction false} StampOfDone(pool: PoolState, stamps: map<string, int>, work: seq<FileRound>, done: seq<string>, i: nat)
    requires OneEach(work) && i < |work| && work[i].rel in done
    ensures
      var f, after := work[i], Account(pool, stamps, work, done).1;
      f.rel in after && after[f.rel] == f.stampAfter
    decreases |work|
  {
    var f, rest := work[0], work[1..];
    assert forall j :: 0 <= j < |rest| ==> rest[j] == work[j + 1];
    if i == 0 {
      StampsOfOthers(Advance(pool, f.rel, f.versionAfter), stamps[f.rel := f.stampAfter], rest, done, f.rel);
    } else if f.rel in done {
      StampOfDone(Advance(pool, f.rel, f.versionAfter), stamps[f.rel := f.stampAfter], rest, done, i - 1);
    } else {
      StampOfDone(pool, stamps, rest, done, i - 1);
    }
  }

  // ---- what a pass does to one open file ------------------------------------------------------

  /** The file is read in this pass, and the pass gets to apply what it read. */
  ghost predicate Consumed(e: Engine, r: Round, f: FileRound) {
    var work := Work(e.pool, e.stamps, r.files);
    && !e.stopped && r.retirement != BeforeApply
    && ReadFiles(e.store, e.pool, work).1.Some?
    && f in work
    && ReadFile(e.store, e.pool, f).1.FileRead?
  }

  ghost predicate SmallBacklog(e: Engine, src: Source, rel: string) {
    forall t: TableId :: t.rel == rel ==> Backlog(e.store, src, t) < ROUND_CAP
  }

  /** A pass that does not consume a file leaves its backlog alone. */
  lemma NotConsumed(e: Engine, r: Round, f: FileRound, t: TableId)
    requires OneEach(r.files) && f in r.files && t.rel == f.rel && !Consumed(e, r, f)
    ensures Of(Applied(e, r), t) == []
  {
    var work := Work(e.pool, e.stamps, r.files);
    WorkIsPart(e.pool, e.stamps, r.files);
    if Applied(e, r) != [] {
      if f in work {
        var i :| 0 <= i < |work| && work[i] == f;
        BatchWith(e.store, e.pool, work, i, t);
      } else {
        NotInWork(e, r, f);
        BatchWithout(e.store, e.pool, work, f.rel, t);
      }
    }
  }

  lemma NotInWork(e: Engine, r: Round, f: FileRound)
    requires OneEach(r.files) && f in r.files && f !in Work(e.pool, e.stamps, r.files)
    ensures Unlisted(f.rel, Work(e.pool, e.stamps, r.files))
  {
    var work := Work(e.pool, e.stamps, r.files);
    WorkIsPart(e.pool, e.stamps, r.files);
    forall i | 0 <= i < |work| ensures work[i].rel != f.rel {
      assert work[i] in r.files;
    }
  }

  /** A pass that consumes a file takes the backlog of each of its tables, up to the cap. */
  lemma ConsumedRows(e: Engine, r: Round, src: Source, f: FileRound, t: TableId)
    requires SourceOk(src) && MarksFit(e.store, src) && AtomicRound(src, r.files)
    requires f in r.files && t.rel == f.rel && Consumed(e, r, f)
    ensures |Of(Applied(e, r), t)| == Min(Backlog(e.store, src, t), ROUND_CAP)
  {
    RoundSees(src, r.files, f);
    hide AtomicRound, Truthful, ReadFiles, Backlog;
    var work := Work(e.pool, e.stamps, r.files);
    WorkIsPart(e.pool, e.stamps, r.files);
    var i :| 0 <= i < |work| && work[i] == f;
    BatchWith(e.store, e.pool, work, i, t);
    DrainedTable(e.store, f, f.tables, src, src, t);
    if t.table !in f.tables {
      NoTableNoBacklog(e.store, src, f, t);
    }
  }

  lemma NoTableNoBacklog(store: Store, src: Source, f: FileRound, t: TableId)
    requires Truthful(src, f) && t.rel == f.rel && t.table !in f.tables
    ensures Backlog(store, src, t) == 0
  {
    NoRowsNoBacklog(store, src, t);
  }

  lemma AllReadIffSmall(e: Engine, src: Source, f: FileRound)
    requires SourceOk(src) && MarksFit(e.store, src) && Truthful(src, f) && FileSees(src, src, f)
    requires ReadFile(e.store, e.pool, f).1.FileRead?
    ensures ReadFile(e.store, e.pool, f).1.all <==> SmallBacklog(e, src, f.rel)
  {
    DrainedAllIffSmall(e.store, f, f.tables, src);
    forall t: TableId | t.rel == f.rel && t.table !in f.tables ensures Backlog(e.store, src, t) == 0 {
      NoRowsNoBacklog(e.store, src, t);
    }
    forall x | x in f.tables && SmallBacklog(e, src, f.rel)
      ensures Backlog(e.store, src, TableId(f.rel, x)) < ROUND_CAP
    {
      assert TableId(f.rel, x).rel == f.rel;
    }
    forall t: TableId | t.rel == f.rel && t.table in f.tables
      && (forall x :: x in f.tables ==> Backlog(e.store, src, TableId(f.rel, x)) < ROUND_CAP)
      ensures Backlog(e.store, src, t) < ROUND_CAP
    {
      assert t == TableId(f.rel, t.table);
    }
  }

  /** The file was read to its end and the pass reached its accounts. */
  ghost predicate AccountedFor(e: Engine, r: Round, src: Source, f: FileRound) {
    Consumed(e, r, f) && r.retirement == Never && SmallBacklog(e, src, f.rel)
  }

  lemma RoundSees(src: Source, files: seq<FileRound>, f: FileRound)
    requires AtomicRound(src, files) && f in files
    ensures Truthful(src, f) && FileSees(src, src, f) && OneEach(files)
  {
    var j :| 0 <= j < |files| && files[j] == f;
  }

  /** A pass has done with a file it read exactly when no table's backlog reached the cap. */
  lemma DoneIffSmall(e: Engine, r: Round, src: Source, f: FileRound)
    requires SourceOk(src) && MarksFit(e.store, src) && AtomicRound(src, r.files) && f in r.files
    requires f in Work(e.pool, e.stamps, r.files) && ReadFiles(e.store, e.pool, Work(e.pool, e.stamps, r.files)).1.Some?
    ensures f.rel in ReadFiles(e.store, e.pool, Work(e.pool, e.stamps, r.files)).1.value.done
            <==> ReadFile(e.store, e.pool, f).1.FileRead? && SmallBacklog(e, src, f.rel)
  {
    RoundSees(src, r.files, f);
    hide AtomicRound, Truthful, FileSees, SmallBacklog, ReadFile, ReadFiles, MarksFit, SourceOk;
    var work := Work(e.pool, e.stamps, r.files);
    WorkIsPart(e.pool, e.stamps, r.files);
    var i :| 0 <= i < |work| && work[i] == f;
    BatchWith(e.store, e.pool, work, i, TableId(f.rel, ""));
    if ReadFile(e.store, e.pool, f).1.FileRead? {
      AllReadIffSmall(e, src, f);
    }
  }

  /** The baseline of an open file moves in a pass exactly when the file was accounted for. */
  lemma BaselineAfterPoll(e: Engine, r: Round, src: Source, f: FileRound)
    requires SourceOk(src) && MarksFit(e.store, src) && AtomicRound(src, r.files) && f in r.files
    requires OpenIn(e.pool, f.rel)
    ensures OpenIn(Poll(e, r).pool, f.rel)
    ensures
      BaselineOf(Poll(e, r), f.rel)
      == if AccountedFor(e, r, src, f) && f.versionAfter.Some? then f.versionAfter else BaselineOf(e, f.rel)
  {
    RoundSees(src, r.files, f);
    hide AtomicRound, Truthful, FileSees, SmallBacklog, ReadFile, ReadFiles, Account, MarksFit, SourceOk, Apply;
    var work := Work(e.pool, e.stamps, r.files);
    WorkIsPart(e.pool, e.stamps, r.files);
    BaselinesStay(e.store, e.pool, work, f.rel);
    var (pool, batch) := ReadFiles(e.store, e.pool, work);
    if !e.stopped && work != [] && batch.Some? && r.retirement == Never {
      if f in work {
        DoneIffSmall(e, r, src, f);
        var i :| 0 <= i < |work| && work[i] == f;
        if f.rel in batch.value.done {
          AccountAdvances(pool, e.stamps, work, batch.value.done, i);
        } else {
          AccountKeepsOthers(pool, e.stamps, work, batch.value.done, f.rel);
        }
      } else {
        NotInWork(e, r, f);
        AccountKeepsOthers(pool, e.stamps, work, batch.value.done, f.rel);
      }
    }
  }

  /** And a file has the stamp taken after the pass exactly when it was accounted for, else the stamp it had. */
  lemma StampAfterPoll(e: Engine, r: Round, src: Source, f: FileRound)
    requires SourceOk(src) && MarksFit(e.store, src) && AtomicRound(src, r.files) && f in r.files
    ensures
      if AccountedFor(e, r, src, f) then f.rel in Poll(e, r).stamps && Poll(e, r).stamps[f.rel] == f.stampAfter
      else SameStamp(Poll(e, r).stamps, e.stamps, f.rel)
  {
    RoundSees(src, r.files, f);
    hide AtomicRound, Truthful, FileSees, SmallBacklog, ReadFile, ReadFiles, Account, MarksFit, SourceOk, Apply;
    var work := Work(e.pool, e.stamps, r.files);
    WorkIsPart(e.pool, e.stamps, r.files);
    var (pool, batch) := ReadFiles(e.store, e.pool, work);
    if !e.stopped && work != [] && batch.Some? && r.retirement == Never {
      if f in work {
        DoneIffSmall(e, r, src, f);
        var i :| 0 <= i < |work| && work[i] == f;
        if f.rel in batch.value.done {
          StampOfDone(pool, e.stamps, work, batch.value.done, i);
        } else {
          StampsOfOthers(pool, e.stamps, work, batch.value.done, f.rel);
        }
      } else {
        NotInWork(e, r, f);
        StampsOfOthers(pool, e.stamps, work, batch.value.done, f.rel);
      }
    }
  }

  /** A file the pass does not know about keeps its baseline and its backlog. */
  lemma UnknownFile(e: Engine, r: Round, rel: string, t: TableId)
    requires OneEach(r.files) && Unlisted(rel, r.files) && OpenIn(e.pool, rel) && t.rel == rel
    ensures OpenIn(Poll(e, r).pool, rel) && BaselineOf(Poll(e, r), rel) == BaselineOf(e, rel)
    ensures Of(Applied(e, r), t) == []
  {
    var work := Work(e.pool, e.stamps, r.files);
    WorkIsPart(e.pool, e.stamps, r.files);
    forall i | 0 <= i < |work| ensures work[i].rel != rel {
      assert work[i] in r.files;
    }
    BatchWithout(e.store, e.pool, work, rel, t);
    var (pool, batch) := ReadFiles(e.store, e.pool, work);
    BaselinesStay(e.store, e.pool, work, rel);
    if batch.Some? {
      AccountKeepsOthers(pool, e.stamps, work, batch.value.done, rel);
    }
  }

  // ---- nothing is swallowed ------------------------------------------------------------------

  lemma PollKeepsWatch(s: Sys, r: Round, rel: string)
    requires SourceOk(s.src) && MarksFit(s.e.store, s.src) && AtomicRound(s.src, r.files) && Watched(s, rel)
    ensures Watched(Sys(Poll(s.e, r), s.src), rel)
  {
    var e := s.e;
    forall t: TableId | t.rel == rel
      ensures Backlog(Poll(e, r).store, s.src, t) <= Backlog(e.store, s.src, t)
    {
      BacklogAfterPoll(e, r, s.src, t);
    }
    if Unlisted(rel, r.files) {
      UnknownFile(e, r, rel, TableId(rel, ""));
    } else {
      var i :| 0 <= i < |r.files| && r.files[i].rel == rel;
      var f := r.files[i];
      assert Truthful(s.src, f);
      BaselineAfterPoll(e, r, s.src, f);
      if AccountedFor(e, r, s.src, f) {
        forall t: TableId | t.rel == rel ensures Backlog(Poll(e, r).store, s.src, t) == 0 {
          BacklogAfterPoll(e, r, s.src, t);
          ConsumedRows(e, r, s.src, f, t);
        }
      }
    }
  }

  lemma CommitKeepsWatch(s: Sys, src': Source, rel: string)
    requires SourceOk(s.src) && Commits(s.src, src') && Watched(s, rel)
    ensures Watched(Sys(s.e, src'), rel)
  {
    if BaselineOf(s.e, rel) == Some(VersionOf(src', rel)) {
      assert VersionOf(s.src, rel) == VersionOf(src', rel);
      forall t: TableId | t.rel == rel ensures Backlog(s.e.store, src', t) == 0 {
        assert RowsOf(s.src, t) == RowsOf(src', t);
      }
    }
  }

  ghost predicate Fitting(s: Sys) {
    SourceOk(s.src) && MarksFit(s.e.store, s.src)
  }

  lemma AtomicKeepsFitting(s: Sys, a: Action, s': Sys)
    requires Fitting(s) && AtomicNext(s, a, s')
    ensures Fitting(s')
  {
    forall t ensures MarkFits(s'.e.store, RowsOf(s'.src, t), t) {
      assert MarkFits(s.e.store, RowsOf(s.src, t), t);
      if a.Polled? {
        BacklogAfterPoll(s.e, a.r, s.src, t);
      } else {
        MarkStillFits(s.e.store, RowsOf(s.src, t), RowsOf(s'.src, t), t);
      }
    }
  }

  /** In every run of commits, atomic polls and retirements, a watched file stays watched: an unread
      row always leaves its baseline behind the present version, so the next poll sees a change. */
  lemma {:induction false} NothingIsSwallowed(states: seq<Sys>, actions: seq<Action>, i: nat, rel: string)
    requires AtomicRun(states, actions) && i < |states| && Fitting(states[0]) && Watched(states[0], rel)
    ensures Fitting(states[i]) && Watched(states[i], rel)
    ensures
      forall t: TableId :: t.rel == rel && Backlog(states[i].e.store, states[i].src, t) > 0 ==>
        BaselineOf(states[i].e, rel) != Some(VersionOf(states[i].src, rel))
  {
    if i > 0 {
      NothingIsSwallowed(states, actions, i - 1, rel);
      var s, a, s' := states[i - 1], actions[i - 1], states[i];
      AtomicKeepsFitting(s, a, s');
      match a
      case Commit => CommitKeepsWatch(s, s'.src, rel);
      case Polled(r) => PollKeepsWatch(s, r, rel);
      case _ =>
    }
  }

  // ---- how fast the backlog drains -----------------------------------------------------------

  /** A pass in which nothing fails and the file can be read. */
  ghost predicate Succeeds(src: Source, r: Round, rel: string) {
    && AtomicRound(src, r.files)
    && r.retirement == Never
    && (forall i, x: string, n: nat :: 0 <= i < |r.files| ==> r.files[i].page(x, n).Some?)
    && exists i :: 0 <= i < |r.files| && r.files[i].rel == rel && r.files[i].key.Some?
         && r.files[i].probe.Some? && r.files[i].versionAfter.Some?
  }

  ghost predicate Settled(s: Sys, rel: string) {
    OpenIn(s.e.pool, rel) && BaselineOf(s.e, rel) == Some(VersionOf(s.src, rel))
  }

  lemma {:induction false} PagesNeverFail(f: FileRound, x: string, mark: Watermark, p: nat)
    requires p < READ_MAX_PAGES && forall n: nat :: f.page(x, n).Some?
    ensures DrainTable(f, x, mark, p).TableRead?
    decreases READ_MAX_PAGES - p
  {
    var rows := ReadNew(f.page(x, p).value, mark);
    if |rows| == READ_PAGE && p + 1 < READ_MAX_PAGES {
      PagesNeverFail(f, x, rows[|rows| - 1].key, p + 1);
    }
  }

  lemma {:induction false} TablesNeverFail(store: Store, f: FileRound, tables: seq<string>)
    requires forall x: string, n: nat :: f.page(x, n).Some?
    ensures DrainTables(store, f, tables).FileRead?
    decreases |tables|
  {
    if tables != [] {
      PagesNeverFail(f, tables[0], MarkOf(store, TableId(f.rel, tables[0])), 0);
      TablesNeverFail(store, f, tables[1..]);
    }
  }

  lemma {:induction false} FilesNeverFail(store: Store, pool: PoolState, work: seq<FileRound>)
    requires forall i, x: string, n: nat :: 0 <= i < |work| ==> work[i].page(x, n).Some?
    ensures ReadFiles(store, pool, work).1.Some?
    decreases |work|
  {
    if work != [] {
      var f := work[0];
      forall x: string, n: nat ensures f.page(x, n).Some? {
        assert work[0].page(x, n).Some?;
      }
      TablesNeverFail(store, f, f.tables);
      var rest := work[1..];
      forall i, x: string, n: nat | 0 <= i < |rest| ensures rest[i].page(x, n).Some? {
        assert work[i + 1].page(x, n).Some?;
      }
      FilesNeverFail(store, ReadFile(store, pool, f).0, rest);
    }
  }

  /** One successful round takes the cap off every backlog of the file, and settles it exactly when
      all of them were below the cap. */
  lemma SuccessfulRound(s: Sys, r: Round, rel: string)
    requires Fitting(s) && Watched(s, rel) && !s.e.stopped && Succeeds(s.src, r, rel)
    ensures
      var s' := Sys(Poll(s.e, r), s.src);
      && !s'.e.stopped && Fitting(s') && Watched(s', rel)
      && (forall t: TableId :: t.rel == rel ==>
            Backlog(s'.e.store, s.src, t) == Backlog(s.e.store, s.src, t) - Min(Backlog(s.e.store, s.src, t), ROUND_CAP))
      && (Settled(s', rel) <==> SmallBacklog(s.e, s.src, rel))
  {
    var e := s.e;
    var i :| 0 <= i < |r.files| && r.files[i].rel == rel && r.files[i].key.Some?
             && r.files[i].probe.Some? && r.files[i].versionAfter.Some?;
    var f := r.files[i];
    assert Truthful(s.src, f) && FileSees(s.src, s.src, f) && f in r.files;
    AtomicKeepsFitting(s, Polled(r), Sys(Poll(e, r), s.src));
    PollKeepsWatch(s, r, rel);
    BaselineAfterPoll(e, r, s.src, f);
    WorkIsPart(e.pool, e.stamps, r.files);
    SuccessfulReads(e, r, f);
    forall t: TableId | t.rel == rel
      ensures Backlog(Poll(e, r).store, s.src, t) == Backlog(e.store, s.src, t) - Min(Backlog(e.store, s.src, t), ROUND_CAP)
    {
      BacklogAfterPoll(e, r, s.src, t);
      if Changed(e.pool, e.stamps, f) {
        ConsumedRows(e, r, s.src, f, t);
      } else {
        NotConsumed(e, r, f, t);
      }
    }
  }

  lemma SuccessfulReads(e: Engine, r: Round, f: FileRound)
    requires OneEach(r.files) && f in r.files && f.key.Some? && OpenIn(e.pool, f.rel) && !e.stopped
    requires r.retirement == Never
    requires forall i, x: string, n: nat :: 0 <= i < |r.files| ==> r.files[i].page(x, n).Some?
    ensures Consumed(e, r, f) <==> Changed(e.pool, e.stamps, f)
    ensures !Poll(e, r).stopped
  {
    var work := Work(e.pool, e.stamps, r.files);
    WorkIsPart(e.pool, e.stamps, r.files);
    forall i, x: string, n: nat | 0 <= i < |work| ensures work[i].page(x, n).Some? {
      assert work[i] in r.files;
      var j :| 0 <= j < |r.files| && r.files[j] == work[i];
      assert r.files[j].page(x, n).Some?;
    }
    FilesNeverFail(e.store, e.pool, work);
    var j :| 0 <= j < |r.files| && r.files[j] == f;
    forall x: string, n: nat ensures f.page(x, n).Some? {
      assert r.files[j].page(x, n).Some?;
    }
    TablesNeverFail(e.store, f, f.tables);
  }

  ghost function AfterRounds(e: Engine, rounds: seq<Round>): Engine
    decreases |rounds|
  {
    if rounds == [] then e else AfterRounds(Poll(e, rounds[0]), rounds[1..])
  }

  ghost predicate BacklogBelow(s: Sys, rel: string, bound: nat) {
    forall t: TableId :: t.rel == rel ==> Backlog(s.e.store, s.src, t) < bound
  }

  /** What `k` rounds can take of one table. */
  function Caps(k: nat): (n: nat)
    ensures k > 0 ==> n > 0
  {
    if k == 0 then 0 else Caps(k - 1) + ROUND_CAP
  }

  lemma {:induction false} CapsIsProduct(k: nat)
    ensures Caps(k) == k * ROUND_CAP
  {
    if k > 0 {
      CapsIsProduct(k - 1);
    }
  }

  /** Taking the cap off every backlog moves each bound down by the cap. */
  lemma BoundMoves(s: Sys, s': Sys, rel: string, bound: nat)
    requires bound > 0
    requires forall t: TableId :: t.rel == rel ==>
               Backlog(s'.e.store, s'.src, t) == Backlog(s.e.store, s.src, t) - Min(Backlog(s.e.store, s.src, t), ROUND_CAP)
    ensures BacklogBelow(s, rel, bound + ROUND_CAP) <==> BacklogBelow(s', rel, bound)
  {
    if BacklogBelow(s', rel, bound) {
      forall t: TableId | t.rel == rel ensures Backlog(s.e.store, s.src, t) < bound + ROUND_CAP {
        assert Backlog(s'.e.store, s'.src, t) < bound;
      }
    }
    if BacklogBelow(s, rel, bound + ROUND_CAP) {
      forall t: TableId | t.rel == rel ensures Backlog(s'.e.store, s'.src, t) < bound {
        assert Backlog(s.e.store, s.src, t) < bound + ROUND_CAP;
      }
    }
  }

  lemma SuccessfulStep(s: Sys, r: Round, rel: string, k: nat)
    requires Fitting(s) && Watched(s, rel) && !s.e.stopped && Succeeds(s.src, r, rel)
    ensures
      var s' := Sys(Poll(s.e, r), s.src);
      && !s'.e.stopped && Fitting(s') && Watched(s', rel)
      && (k > 0 ==> (BacklogBelow(s, rel, Caps(k + 1)) <==> BacklogBelow(s', rel, Caps(k))))
      && (Settled(s', rel) <==> BacklogBelow(s, rel, Caps(1)))
  {
    SuccessfulRound(s, r, rel);
    assert Caps(1) == Caps(0) + ROUND_CAP;
    if k > 0 {
      BoundMoves(s, Sys(Poll(s.e, r), s.src), rel, Caps(k));
    }
  }

  lemma {:induction false} SettledAfterRounds(s: Sys, rounds: seq<Round>, rel: string)
    requires |rounds| > 0 && Fitting(s) && Watched(s, rel) && !s.e.stopped
    requires forall i :: 0 <= i < |rounds| ==> Succeeds(s.src, rounds[i], rel)
    ensures
      var end := Sys(AfterRounds(s.e, rounds), s.src);
      Watched(end, rel) && (Settled(end, rel) <==> BacklogBelow(s, rel, Caps(|rounds|)))
    decreases |rounds|
  {
    hide Poll, Fitting, Watched, Settled, Succeeds, BacklogBelow;
    var s1, rest := Sys(Poll(s.e, rounds[0]), s.src), rounds[1..];
    SuccessfulStep(s, rounds[0], rel, |rest|);
    assert AfterRounds(s.e, rounds) == AfterRounds(s1.e, rest);
    if rest != [] {
      forall i | 0 <= i < |rest| ensures Succeeds(s1.src, rest[i], rel) {
        assert rest[i] == rounds[i + 1];
      }
      SettledAfterRounds(s1, rest, rel);
    }
  }

  /** Once commits stop, `k` successful rounds settle a watched file exactly when its largest table
      backlog is below `k` caps, and settled means nothing is left unread. The smallest such `k` is
      floor(largest backlog / cap) + 1. */
  lemma DrainedWithinRounds(s: Sys, rounds: seq<Round>, rel: string)
    requires |rounds| > 0 && Fitting(s) && Watched(s, rel) && !s.e.stopped
    requires forall i :: 0 <= i < |rounds| ==> Succeeds(s.src, rounds[i], rel)
    ensures
      var end := Sys(AfterRounds(s.e, rounds), s.src);
      && (Settled(end, rel) <==> BacklogBelow(s, rel, |rounds| * ROUND_CAP))
      && (Settled(end, rel) ==> BacklogBelow(end, rel, 1))
  {
    SettledAfterRounds(s, rounds, rel);
    CapsIsProduct(|rounds|);
  }

  // ---- with failures in between --------------------------------------------------------------------

  /** How many of these passes succeed for the file. */
  ghost function Successes(src: Source, rounds: seq<Round>, rel: string): nat
    decreases |rounds|
  {
    if rounds == [] then 0
    else Successes(src, rounds[1..], rel) + if Succeeds(src, rounds[0], rel) then 1 else 0
  }

  /** Passes of any kind, successful or not, as long as the account stays registered. */
  ghost predicate AnyPasses(src: Source, rounds: seq<Round>) {
    forall i :: 0 <= i < |rounds| ==> AtomicRound(src, rounds[i].files) && rounds[i].retirement == Never
  }

  lemma AnyPassesRest(src: Source, rounds: seq<Round>)
    requires AnyPasses(src, rounds) && rounds != []
    ensures AnyPasses(src, rounds[1..])
  {
    var rest := rounds[1..];
    assert forall i :: 0 <= i < |rest| ==> rest[i] == rounds[i + 1];
  }

  lemma NeverRetiredRuns(e: Engine, r: Round)
    requires r.retirement == Never
    ensures Poll(e, r).stopped == e.stopped
  {
  }

  /** A pass of any kind keeps the watch, enlarges no backlog and unsettles nothing. */
  lemma AnyPassKeeps(s: Sys, r: Round, rel: string)
    requires Fitting(s) && Watched(s, rel) && AtomicRound(s.src, r.files)
    ensures
      var s' := Sys(Poll(s.e, r), s.src);
      && Fitting(s') && Watched(s', rel)
      && (forall t: TableId :: t.rel == rel ==> Backlog(s'.e.store, s.src, t) <= Backlog(s.e.store, s.src, t))
      && (Settled(s, rel) ==> Settled(s', rel))
  {
    AtomicKeepsFitting(s, Polled(r), Sys(Poll(s.e, r), s.src));
    PollKeepsWatch(s, r, rel);
    forall t: TableId | t.rel == rel ensures Backlog(Poll(s.e, r).store, s.src, t) <= Backlog(s.e.store, s.src, t) {
      BacklogAfterPoll(s.e, r, s.src, t);
    }
    hide Poll, Applied;
    if Settled(s, rel) {
      if Unlisted(rel, r.files) {
        UnknownFile(s.e, r, rel, TableId(rel, ""));
      } else {
        var i :| 0 <= i < |r.files| && r.files[i].rel == rel;
        assert Truthful(s.src, r.files[i]);
        BaselineAfterPoll(s.e, r, s.src, r.files[i]);
      }
    }
  }

  lemma {:induction false} SettledStays(s: Sys, rounds: seq<Round>, rel: string)
    requires Fitting(s) && Watched(s, rel) && AnyPasses(s.src, rounds) && Settled(s, rel)
    ensures
      var end := Sys(AfterRounds(s.e, rounds), s.src);
      Settled(end, rel) && Watched(end, rel)
    decreases |rounds|
  {
    hide Poll, Fitting, Watched, Settled;
    if rounds != [] {
      AnyPassKeeps(s, rounds[0], rel);
      AnyPassesRest(s.src, rounds);
      SettledStays(Sys(Poll(s.e, rounds[0]), s.src), rounds[1..], rel);
    }
  }

  lemma SuccessSettlesOrShrinks(s: Sys, r: Round, rel: string, k: nat)
    requires Fitting(s) && Watched(s, rel) && !s.e.stopped && Succeeds(s.src, r, rel)
    requires BacklogBelow(s, rel, Caps(k + 1))
    ensures
      var s' := Sys(Poll(s.e, r), s.src);
      if k == 0 then Settled(s', rel) else BacklogBelow(s', rel, Caps(k))
  {
    SuccessfulStep(s, r, rel, k);
  }

  /** Once commits stop, whatever passes fail, miss their keys or abort in between: as soon as enough of
      them have succeeded, one more than the largest backlog holds caps, a watched file is settled and
      nothing of it is left unread. */
  lemma {:induction false} DrainedDespiteFailures(s: Sys, rounds: seq<Round>, rel: string)
    requires Fitting(s) && Watched(s, rel) && !s.e.stopped && AnyPasses(s.src, rounds)
    requires Successes(s.src, rounds, rel) > 0 && BacklogBelow(s, rel, Successes(s.src, rounds, rel) * ROUND_CAP)
    ensures
      var end := Sys(AfterRounds(s.e, rounds), s.src);
      Settled(end, rel) && BacklogBelow(end, rel, 1)
    decreases |rounds|
  {
    hide Poll, Fitting, Settled, Succeeds;
    var s' := Sys(Poll(s.e, rounds[0]), s.src);
    var k := Successes(s.src, rounds[1..], rel);
    CapsIsProduct(Successes(s.src, rounds, rel));
    CapsIsProduct(k);
    AnyPassKeeps(s, rounds[0], rel);
    AnyPassesRest(s.src, rounds);
    NeverRetiredRuns(s.e, rounds[0]);
    if Succeeds(s.src, rounds[0], rel) {
      SuccessSettlesOrShrinks(s, rounds[0], rel, k);
      if k == 0 {
        SettledStays(s', rounds[1..], rel);
        SettledIsRead(Sys(AfterRounds(s.e, rounds), s.src), rel);
      } else {
        DrainedDespiteFailures(s', rounds[1..], rel);
      }
    } else {
      DrainedDespiteFailures(s', rounds[1..], rel);
    }
  }

  lemma SettledIsRead(s: Sys, rel: string)
    requires Watched(s, rel) && Settled(s, rel)
    ensures BacklogBelow(s, rel, 1)
  {
  }

  // ---- where the watch begins -----------------------------------------------------------------

  /** A file the full build opens and reads whole. Commits may land during the build; if the version
      read when the file was opened is still the present one, then none touched it. */
  ghost predicate ReadWhole(e: Engine, f: FileRound, before: Source, after: Source) {
    && Readable(e.pool, f) && !OpenIn(e.pool, f.rel)
    && (f.opening.Opens? && f.opening.version.Some? ==> f.opening.version.value <= VersionOf(after, f.rel))
    && (f.opening.Opens? && f.opening.version == Some(VersionOf(after, f.rel)) ==>
          forall t: TableId :: t.rel == f.rel ==> RowsOf(before, t) == RowsOf(after, t))
    && (forall t: TableId :: t.rel == f.rel && RowsOf(after, t) != [] ==> ReadsTable(e.pool, f, t))
  }

  lemma {:induction false} BuildOpens(store: Store, pool: PoolState, files: seq<FileRound>, i: nat)
    requires OneEach(files) && i < |files| && Readable(pool, files[i]) && !OpenIn(pool, files[i].rel)
    ensures
      var after := LoadFiles(store, pool, files).1;
      && OpenIn(after, files[i].rel)
      && files[i].opening.Opens? && after.dbs[files[i].rel].baseline == files[i].opening.version
    decreases |files|
  {
    var f, rest := files[0], files[1..];
    assert forall j :: 0 <= j < |rest| ==> rest[j] == files[j + 1];
    if f.key.None? {
      BuildOpens(store, pool, rest, i - 1);
    } else {
      var (tried, got) := GetOrOpen(pool, f.rel, f.key.value, f.opening);
      var next := if got == Connected then LoadTables(store, f, f.tables) else store;
      if i == 0 {
        BuildKeeps(next, tried, rest, f.rel);
      } else {
        AcquireFrame(pool, f.rel, f.key.value, f.opening, files[i].rel);
        BuildOpens(next, tried, rest, i - 1);
      }
    }
  }

  lemma {:induction false} BuildKeeps(store: Store, pool: PoolState, files: seq<FileRound>, rel: string)
    requires OpenIn(pool, rel)
    ensures
      var after := LoadFiles(store, pool, files).1;
      OpenIn(after, rel) && after.dbs[rel].baseline == pool.dbs[rel].baseline
    decreases |files|
  {
    if files != [] {
      var f := files[0];
      if f.key.None? {
        BuildKeeps(store, pool, files[1..], rel);
      } else {
        var (tried, got) := GetOrOpen(pool, f.rel, f.key.value, f.opening);
        AcquireFrame(pool, f.rel, f.key.value, f.opening, rel);
        BuildKeeps(if got == Connected then LoadTables(store, f, f.tables) else store, tried, files[1..], rel);
      }
    }
  }

  /** A full build puts the watch on every file it opened and read whole. */
  lemma BuildStartsTheWatch(e: Engine, r: FullRound, before: Source, after: Source, i: nat)
    requires SourceOk(after) && Sees(before, after, r.files) && i < |r.files|
    requires !e.stopped && !r.retired && r.sections
    requires ReadWhole(e, r.files[i], before, after)
    ensures Watched(Sys(FullSync(e, r), after), r.files[i].rel)
  {
    var f, built := r.files[i], FullSync(e, r);
    BuildOpens(Store(e.wxid, map[], map[]), e.pool, r.files, i);
    if f.opening.version == Some(VersionOf(after, f.rel)) {
      forall t: TableId | t.rel == f.rel ensures Backlog(built.store, after, t) == 0 {
        FullSyncLoads(e, r, before, after, t);
        var rows := RowsOf(after, t);
        if rows != [] {
          assert ReadsTable(e.pool, f, t);
          PositionOfMark(rows, |rows|);
        }
      }
    }
  }

  // ---- where it does not ------------------------------------------------------------------------

  /** A file first opened by a poll takes its baseline before it is read. If that pass can then read the
      version, the file ends up swallowed (open, unread rows, and reading as unchanged) exactly when
      the pass does not consume it and rows were waiting, or some backlog exceeds the cap. */
  lemma FirstOpenInPollSwallowsIff(s: Sys, r: Round, i: nat)
    requires Fitting(s) && AtomicRound(s.src, r.files) && i < |r.files| && !s.e.stopped
    requires !OpenIn(s.e.pool, r.files[i].rel)
    requires OpenIn(Poll(s.e, r).pool, r.files[i].rel)
    requires r.files[i].opening == Opens(Some(VersionOf(s.src, r.files[i].rel)))
    ensures
      var f, s' := r.files[i], Sys(Poll(s.e, r), s.src);
      !Watched(s', f.rel)
      <==> exists t: TableId :: t.rel == f.rel &&
             Backlog(s.e.store, s.src, t) > if Consumed(s.e, r, f) then ROUND_CAP else 0
  {
    var e, f := s.e, r.files[i];
    var work := Work(e.pool, e.stamps, r.files);
    WorkIsPart(e.pool, e.stamps, r.files);
    FreshBaseline(s, r, i);
    forall t: TableId | t.rel == f.rel
      ensures Backlog(Poll(e, r).store, s.src, t) > 0
              <==> Backlog(e.store, s.src, t) > if Consumed(e, r, f) then ROUND_CAP else 0
    {
      BacklogAfterPoll(e, r, s.src, t);
      if Consumed(e, r, f) {
        ConsumedRows(e, r, s.src, f, t);
      } else {
        NotConsumed(e, r, f, t);
      }
    }
  }

  lemma {:induction false} OpeningsKept(store: Store, pool: PoolState, src: Source, work: seq<FileRound>, rel: string, version: int)
    requires forall i :: 0 <= i < |work| && work[i].rel == rel ==> work[i].opening == Opens(Some(version))
    requires OpenIn(pool, rel) ==> pool.dbs[rel].baseline == Some(version)
    ensures
      var after := ReadFiles(store, pool, work).0;
      OpenIn(after, rel) ==> after.dbs[rel].baseline == Some(version)
    decreases |work|
  {
    if work != [] {
      var rest := work[1..];
      assert forall i :: 0 <= i < |rest| ==> rest[i] == work[i + 1];
      var pool1 := ReadFile(store, pool, work[0]).0;
      assert OpenIn(pool1, rel) ==> pool1.dbs[rel].baseline == Some(version);
      OpeningsKept(store, pool1, src, rest, rel, version);
    }
  }

  lemma {:induction false} AccountAnswers(pool: PoolState, stamps: map<string, int>, work: seq<FileRound>, done: seq<string>, rel: string, version: int)
    requires forall i :: 0 <= i < |work| && work[i].rel == rel ==> work[i].versionAfter.None? || work[i].versionAfter == Some(version)
    requires OpenIn(pool, rel) ==> pool.dbs[rel].baseline == Some(version)
    ensures
      var after := Account(pool, stamps, work, done).0;
      (OpenIn(after, rel) <==> OpenIn(pool, rel)) && (OpenIn(after, rel) ==> after.dbs[rel].baseline == Some(version))
    decreases |work|
  {
    if work != [] {
      var f, rest := work[0], work[1..];
      assert forall i :: 0 <= i < |rest| ==> rest[i] == work[i + 1];
      if f.rel in done {
        AccountAnswers(Advance(pool, f.rel, f.versionAfter), stamps[f.rel := f.stampAfter], rest, done, rel, version);
      } else {
        AccountAnswers(pool, stamps, rest, done, rel, version);
      }
    }
  }

  lemma FreshBaseline(s: Sys, r: Round, i: nat)
    requires AtomicRound(s.src, r.files) && i < |r.files|
    requires !OpenIn(s.e.pool, r.files[i].rel) && OpenIn(Poll(s.e, r).pool, r.files[i].rel)
    requires r.files[i].opening == Opens(Some(VersionOf(s.src, r.files[i].rel)))
    ensures BaselineOf(Poll(s.e, r), r.files[i].rel) == Some(VersionOf(s.src, r.files[i].rel))
  {
    var e, rel := s.e, r.files[i].rel;
    var version := VersionOf(s.src, rel);
    var work := Work(e.pool, e.stamps, r.files);
    WorkIsPart(e.pool, e.stamps, r.files);
    forall j | 0 <= j < |work| && work[j].rel == rel
      ensures work[j] == r.files[i]
    {
      assert work[j] in r.files;
      var k :| 0 <= k < |r.files| && r.files[k] == work[j];
    }
    assert Truthful(s.src, r.files[i]);
    OpeningsKept(e.store, e.pool, s.src, work, rel, version);
    var (pool, batch) := ReadFiles(e.store, e.pool, work);
    if batch.Some? {
      AccountAnswers(pool, e.stamps, work, batch.value.done, rel, version);
    }
  }
}
