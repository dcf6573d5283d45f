/** One account's sync engine (`src/sync/mod.rs`): `full_sync` and `poll_once`.

    Everything the outside decides in one pass is collected in a round: which files exist, their
    stamps, keys and data versions, what opening a file answers, and what each page read of a table
    sees (or that it fails). Rows are tracked by table. */
module SyncEngine {
  import opened Wrappers
  import opened Index
  import opened LivePools
  import opened History

  /** Page cap of one table in one round. */
  const READ_MAX_PAGES: nat := 64

  datatype TableId = TableId(rel: string, table: string)
  datatype Tagged = Tagged(table: TableId, row: Row)
  datatype Mark = Mark(table: TableId, mark: Watermark)
  datatype Event = New(table: TableId, row: Row) | Revoke(table: TableId, row: Row)

  datatype Store = Store(myWxid: string, held: map<TableId, seq<Record>>, watermarks: map<TableId, Watermark>)

  const EMPTY_STORE: Store := Store("", map[], map[])

  function MarkOf(store: Store, t: TableId): Watermark {
    if t in store.watermarks then store.watermarks[t] else ZERO
  }

  function HeldIn(held: map<TableId, seq<Record>>, t: TableId): seq<Record> {
    if t in held then held[t] else []
  }

  function HeldOf(store: Store, t: TableId): seq<Record> {
    HeldIn(store.held, t)
  }

  /** One message database in one pass. `page(table, n)` is the table as page read `n` sees it. */
  datatype FileRound = FileRound(
    rel: string,
    stamp: int,
    key: Option<DbKey>,
    probe: Option<int>,
    opening: Opening,
    tables: seq<string>,
    page: (string, nat) -> Option<seq<Row>>,
    stampAfter: int,
    versionAfter: Option<int>)

  /** When, relative to the pass, a deregistration raises the stop flag. */
  datatype Retirement = Never | BeforeApply | BeforeAccounts

  datatype Round = Round(files: seq<FileRound>, retirement: Retirement)

  datatype Engine = Engine(
    wxid: string,
    store: Store,
    pool: PoolState,
    stamps: map<string, int>,
    stopped: bool,
    log: seq<Event>)

  // ---- phase 0: which files changed ------------------------------------------------

  /** Open files compare data versions, the others compare stamps; no answer reads as changed. */
  predicate Changed(pool: PoolState, stamps: map<string, int>, f: FileRound) {
    if OpenIn(pool, f.rel) then
      var pending := ForeignCommitPending(pool, f.rel, f.probe);
      pending.None? || pending.value
    else
      !(f.rel in stamps && stamps[f.rel] == f.stamp)
  }

  function Work(pool: PoolState, stamps: map<string, int>, files: seq<FileRound>): seq<FileRound> {
    if files == [] then []
    else
      var rest := Work(pool, stamps, files[..|files| - 1]);
      if Changed(pool, stamps, files[|files| - 1]) then rest + [files[|files| - 1]] else rest
  }

  // ---- phase 1: read -----------------------------------------------------------------

  datatype TableRead = TableFailed | TableRead(rows: seq<Row>, all: bool)

  /** Pages `p`, `p + 1`, ... of one table: on until a short page, a failure or the cap. */
  function DrainTable(f: FileRound, table: string, mark: Watermark, p: nat): TableRead
    requires p < READ_MAX_PAGES
    decreases READ_MAX_PAGES - p
  {
    match f.page(table, p)
    case None => TableFailed
    case Some(view) =>
      var rows := ReadNew(view, mark);
      if |rows| < READ_PAGE then TableRead(rows, true)
      else if p + 1 >= READ_MAX_PAGES then TableRead(rows, false)
      else Before(rows, DrainTable(f, table, rows[|rows| - 1].key, p + 1))
  }

  function Before(rows: seq<Row>, rest: TableRead): TableRead {
    if rest.TableFailed? then TableFailed else TableRead(rows + rest.rows, rest.all)
  }

  /** One page of the loop, and whether another follows. */
  lemma DrainOnePage(f: FileRound, table: string, mark: Watermark, p: nat)
    requires p < READ_MAX_PAGES && f.page(table, p).Some?
    ensures
      var rows, read := ReadNew(f.page(table, p).value, mark), DrainTable(f, table, mark, p);
      if |rows| >= READ_PAGE && p + 1 < READ_MAX_PAGES
      then read == Before(rows, DrainTable(f, table, rows[|rows| - 1].key, p + 1))
      else read == TableRead(rows, |rows| < READ_PAGE)
  {
    hide ReadNew, Before;
  }

  datatype FileRead = Skipped | FileFailed | FileRead(rows: seq<Tagged>, all: bool)

  function Tag(t: TableId, rows: seq<Row>): seq<Tagged> {
    seq(|rows|, i requires 0 <= i < |rows| => Tagged(t, rows[i]))
  }

  function DrainTables(store: Store, f: FileRound, tables: seq<string>): (read: FileRead)
    ensures !read.Skipped?
  {
    if tables == [] then FileRead([], true)
    else
      var t := TableId(f.rel, tables[0]);
      match DrainTable(f, tables[0], MarkOf(store, t), 0)
      case TableFailed => FileFailed
      case TableRead(rows, all) => After(Tag(t, rows), all, DrainTables(store, f, tables[1..]))
  }

  function After(rows: seq<Tagged>, all: bool, rest: FileRead): FileRead {
    if rest.FileRead? then FileRead(rows + rest.rows, all && rest.all) else rest
  }

  function ReadFile(store: Store, pool: PoolState, f: FileRound): (PoolState, FileRead) {
    if f.key.None? then (pool, Skipped)
    else
      var (tried, got) := GetOrOpen(pool, f.rel, f.key.value, f.opening);
      match got
      case BadKey => (MarkKeyless(tried, f.rel), Skipped)
      case Unavailable => (tried, Skipped)
      case Connected => (tried, DrainTables(store, f, f.tables))
  }

  /** Only a refused key keeps a file away from later passes; one that could not be opened for another
      reason is tried again. Either way this pass goes on without it. */
  lemma OnlyWrongKeysBackOff(store: Store, pool: PoolState, f: FileRound)
    requires f.key.Some? && !OpenIn(pool, f.rel) && !BackedOff(pool, f.rel, f.key.value)
    ensures
      var (after, read) := ReadFile(store, pool, f);
      && (f.opening.WrongKey? ==> read.Skipped? && BackedOff(after, f.rel, f.key.value))
      && (f.opening.Deferred? ==> read.Skipped? && f.rel !in after.keyless)
      && (f.opening.Opens? ==> !read.Skipped? && OpenIn(after, f.rel) && f.rel !in after.keyless)
  {
    hide DrainTables;
  }

  /** What phase 1 leaves: the rows read, and the files read to their end. */
  datatype Batch = Batch(rows: seq<Tagged>, done: seq<string>)

  /** A failed read aborts the whole phase; connections opened so far stay open. */
  function ReadFiles(store: Store, pool: PoolState, work: seq<FileRound>): (PoolState, Option<Batch>)
    decreases |work|
  {
    if work == [] then (pool, Some(Batch([], [])))
    else
      var (pool1, read) := ReadFile(store, pool, work[0]);
      if read.FileFailed? then (pool1, None)
      else
        var (pool2, rest) := ReadFiles(store, pool1, work[1..]);
        (pool2, if rest.None? then None else Some(Joined(work[0].rel, read, rest.value)))
  }

  function Joined(rel: string, read: FileRead, rest: Batch): Batch
    requires !read.FileFailed?
  {
    if read.Skipped? then rest
    else Batch(read.rows + rest.rows, (if read.all then [rel] else []) + rest.done)
  }

  // ---- phase 2: apply ----------------------------------------------------------------

  function OrdinaryTags(rows: seq<Tagged>): seq<Tagged> {
    if rows == [] then []
    else
      var rest := OrdinaryTags(rows[..|rows| - 1]);
      if IsSystem(rows[|rows| - 1].row) then rest else rest + [rows[|rows| - 1]]
  }

  function SystemTags(rows: seq<Tagged>): seq<Tagged> {
    if rows == [] then []
    else
      var rest := SystemTags(rows[..|rows| - 1]);
      if IsSystem(rows[|rows| - 1].row) then rest + [rows[|rows| - 1]] else rest
  }

  function MarksOf(rows: seq<Tagged>): seq<Mark> {
    seq(|rows|, i requires 0 <= i < |rows| => Mark(rows[i].table, rows[i].row.key))
  }

  function ApplyMarks(marks: map<TableId, Watermark>, updates: seq<Mark>): map<TableId, Watermark> {
    if updates == [] then marks
    else
      var last := updates[|updates| - 1];
      ApplyMarks(marks, updates[..|updates| - 1])[last.table := last.mark]
  }

  function ApplyRows(held: map<TableId, seq<Record>>, rows: seq<Tagged>, myWxid: string): map<TableId, seq<Record>> {
    if rows == [] then held
    else
      var before := ApplyRows(held, rows[..|rows| - 1], myWxid);
      var last := rows[|rows| - 1];
      before[last.table := HeldIn(before, last.table) + [ToRecord(last.row, myWxid)]]
  }

  function NewEvents(rows: seq<Tagged>, myWxid: string): seq<Event> {
    if rows == [] then []
    else
      var last := rows[|rows| - 1];
      var before := NewEvents(rows[..|rows| - 1], myWxid);
      if IsSend(last.row.sender, myWxid) then before else before + [New(last.table, last.row)]
  }

  function RevokeEvents(rows: seq<Tagged>): seq<Event> {
    if rows == [] then []
    else
      var last := rows[|rows| - 1];
      var before := RevokeEvents(rows[..|rows| - 1]);
      if last.row.revoke && last.row.key.createTime != 0 then before + [Revoke(last.table, last.row)] else before
  }

  /** How many new messages, and how many revocations, a log announces. */
  function NewsIn(log: seq<Event>): nat {
    if log == [] then 0 else NewsIn(log[..|log| - 1]) + if log[|log| - 1].New? then 1 else 0
  }

  function RevokesIn(log: seq<Event>): nat {
    if log == [] then 0 else RevokesIn(log[..|log| - 1]) + if log[|log| - 1].Revoke? then 1 else 0
  }

  lemma {:induction false} CountsConcat(a: seq<Event>, b: seq<Event>)
    ensures NewsIn(a + b) == NewsIn(a) + NewsIn(b) && RevokesIn(a + b) == RevokesIn(a) + RevokesIn(b)
  {
    if b == [] {
      assert a + b == a;
    } else {
      assert (a + b)[..|a + b| - 1] == a + b[..|b| - 1];
      CountsConcat(a, b[..|b| - 1]);
    }
  }

  lemma {:induction false} NewEventsAreNews(rows: seq<Tagged>, me: string)
    ensures NewsIn(NewEvents(rows, me)) == |NewEvents(rows, me)| && RevokesIn(NewEvents(rows, me)) == 0
  {
    if rows != [] {
      var init, last := NewEvents(rows[..|rows| - 1], me), rows[|rows| - 1];
      NewEventsAreNews(rows[..|rows| - 1], me);
      assert (init + [New(last.table, last.row)])[..|init|] == init;
    }
  }

  lemma {:induction false} RevokeEventsAreRevokes(rows: seq<Tagged>)
    ensures RevokesIn(RevokeEvents(rows)) == |RevokeEvents(rows)| && NewsIn(RevokeEvents(rows)) == 0
  {
    if rows != [] {
      var init, last := RevokeEvents(rows[..|rows| - 1]), rows[|rows| - 1];
      RevokeEventsAreRevokes(rows[..|rows| - 1]);
      assert (init + [Revoke(last.table, last.row)])[..|init|] == init;
    }
  }

  lemma AppliedCounts(log: seq<Event>, news: seq<Tagged>, me: string, revokes: seq<Tagged>)
    ensures
      var after := log + NewEvents(news, me) + RevokeEvents(revokes);
      && NewsIn(after) == NewsIn(log) + |NewEvents(news, me)|
      && RevokesIn(after) == RevokesIn(log) + |RevokeEvents(revokes)|
  {
    CountsConcat(log + NewEvents(news, me), RevokeEvents(revokes));
    CountsConcat(log, NewEvents(news, me));
    NewEventsAreNews(news, me);
    RevokeEventsAreRevokes(revokes);
  }

  function Apply(e: Engine, rows: seq<Tagged>): Engine {
    var me := e.store.myWxid;
    e.(store := Store(me,
                      ApplyRows(e.store.held, OrdinaryTags(rows), me),
                      ApplyMarks(e.store.watermarks, MarksOf(rows))),
       log := e.log + NewEvents(OrdinaryTags(rows), me) + RevokeEvents(SystemTags(rows)))
  }

  // ---- phase 4: accounts -------------------------------------------------------------

  function Account(pool: PoolState, stamps: map<string, int>, work: seq<FileRound>, done: seq<string>)
    : (PoolState, map<string, int>)
    decreases |work|
  {
    if work == [] then (pool, stamps)
    else if work[0].rel !in done then Account(pool, stamps, work[1..], done)
    else
      Account(Advance(pool, work[0].rel, work[0].versionAfter), stamps[work[0].rel := work[0].stampAfter], work[1..], done)
  }

  /** One poll pass as a function of the engine and the round. */
  function Poll(e: Engine, r: Round): Engine {
    if e.stopped then e
    else
      var work := Work(e.pool, e.stamps, r.files);
      if work == [] then e
      else
        var (pool, batch) := ReadFiles(e.store, e.pool, work);
        var read := e.(pool := pool, stopped := r.retirement == BeforeApply);
        if batch.None? || read.stopped then read
        else
          var applied := Apply(read, batch.value.rows).(stopped := r.retirement != Never);
          if applied.stopped then applied
          else
            var (pool', stamps') := Account(pool, e.stamps, work, batch.value.done);
            applied.(pool := pool', stamps := stamps')
  }

  // ---- the full build ----------------------------------------------------------------

  /** A full pass; `sections` is false when the session or contact database has no key, which ends
      the build before any message database is opened. */
  datatype FullRound = FullRound(files: seq<FileRound>, sections: bool, retired: bool)

  function LoadTables(store: Store, f: FileRound, tables: seq<string>): Store {
    if tables == [] then store
    else
      var t := TableId(f.rel, tables[|tables| - 1]);
      var before := LoadTables(store, f, tables[..|tables| - 1]);
      match f.page(tables[|tables| - 1], 0)
      case None => before
      case Some(view) => Loaded(before, t, view)
  }

  function Loaded(store: Store, t: TableId, view: seq<Row>): Store {
    store.(held := store.held[t := HeldOf(store, t) + ToRecords(view, store.myWxid)],
           watermarks := store.watermarks[t := MaxWatermark(MarkOf(store, t), MaxKey(view))])
  }

  function LoadFiles(store: Store, pool: PoolState, files: seq<FileRound>): (Store, PoolState)
    decreases |files|
  {
    if files == [] then (store, pool)
    else
      var f := files[0];
      if f.key.None? then LoadFiles(store, pool, files[1..])
      else
        var (tried, got) := GetOrOpen(pool, f.rel, f.key.value, f.opening);
        LoadFiles(if got == Connected then LoadTables(store, f, f.tables) else store, tried, files[1..])
  }

  /** Only files that could be opened get a stamp. */
  function SeedStamps(pool: PoolState, files: seq<FileRound>): map<string, int> {
    if files == [] then map[]
    else
      var f := files[|files| - 1];
      var before := SeedStamps(pool, files[..|files| - 1]);
      if OpenIn(pool, f.rel) then before[f.rel := f.stampAfter] else before
  }

  function FullSync(e: Engine, r: FullRound): Engine {
    var fresh' := Store(e.wxid, map[], map[]);
    var (store, pool) := if r.sections then LoadFiles(fresh', e.pool, r.files) else (fresh', e.pool);
    if e.stopped || r.retired then e.(pool := pool, stopped := true)
    else e.(store := store, pool := pool, stamps := SeedStamps(pool, r.files))
  }

  // ---- the engine as an object ---------------------------------------------------------

  function EventsOf(sent: seq<Stamped<Event>>): seq<Event> {
    seq(|sent|, i requires 0 <= i < |sent| => sent[i].event)
  }

  class AccountSync {
    const wxid: string
    const pool: LivePool
    const bus: EventBus<Event>
    var store: Store
    var stamps: map<string, int>
    var stopped: bool

    constructor (wxid: string, bus: EventBus<Event>)
      requires bus.Valid()
      ensures Valid() && fresh(pool) && this.bus == bus
      ensures State() == Engine(wxid, EMPTY_STORE, PoolState(map[], {}), map[], false, EventsOf(bus.sent))
    {
      this.wxid, this.bus := wxid, bus;
      pool := new LivePool();
      store, stamps, stopped := EMPTY_STORE, map[], false;
    }

    ghost predicate Valid()
      reads this, bus, bus.history
    {
      bus.Valid()
    }

    ghost function State(): Engine
      reads this, pool, bus
    {
      Engine(wxid, store, pool.State(), stamps, stopped, EventsOf(bus.sent))
    }

    method ClassifyChanged(files: seq<FileRound>) returns (work: seq<FileRound>)
      ensures work == Work(pool.State(), stamps, files)
      ensures forall f :: f in work <==>
                && f in files
                && if f.rel in pool.dbs && pool.dbs[f.rel].isOpen then f.probe.None? || pool.dbs[f.rel].baseline != f.probe
                   else f.rel !in stamps || stamps[f.rel] != f.stamp
    {
      work := [];
      for i := 0 to |files|
        invariant work == Work(pool.State(), stamps, files[..i])
        invariant forall f :: f in work <==>
                    && f in files[..i]
                    && if f.rel in pool.dbs && pool.dbs[f.rel].isOpen then f.probe.None? || pool.dbs[f.rel].baseline != f.probe
                       else f.rel !in stamps || stamps[f.rel] != f.stamp
      {
        var f := files[i];
        assert files[..i + 1][..i] == files[..i];
        var changed: bool;
        if pool.IsOpen(f.rel) {
          var pending := pool.Pending(f.rel, f.probe);
          changed := if pending.Some? then pending.value else true;
        } else {
          changed := !(f.rel in stamps && stamps[f.rel] == f.stamp);
        }
        if changed {
          work := work + [f];
        }
      }
      assert files[..|files|] == files;
    }

    /** Sorts one page into ordinary and system rows and records a mark for each. */
    method SortPage(id: TableId, page: seq<Row>) returns (newRows: seq<Tagged>, revokeRows: seq<Tagged>, marks: seq<Mark>)
      ensures Sorted(Tag(id, page), newRows, revokeRows, marks)
    {
      newRows, revokeRows, marks := [], [], [];
      for i := 0 to |page|
        invariant Sorted(Tag(id, page[..i]), newRows, revokeRows, marks)
      {
        assert Tag(id, page[..i + 1])[..i] == Tag(id, page[..i]);
        if IsSystem(page[i]) {
          revokeRows := revokeRows + [Tagged(id, page[i])];
        } else {
          newRows := newRows + [Tagged(id, page[i])];
        }
        marks := marks + [Mark(id, page[i].key)];
      }
      assert page[..|page|] == page;
    }

    /** Drains one table, page by page. */
    method Drain(f: FileRound, table: string, start: Watermark)
      returns (ok: bool, all: bool, newRows: seq<Tagged>, revokeRows: seq<Tagged>, marks: seq<Mark>, rows: seq<Row>)
      ensures DrainTable(f, table, start, 0) == if ok then TableRead(rows, all) else TableFailed
      ensures Sorted(Tag(TableId(f.rel, table), rows), newRows, revokeRows, marks)
    {
      hide ReadNew, DrainTable, Before, Sorted, Tag;
      var id := TableId(f.rel, table);
      var mark, pages := start, 0;
      NothingRead(id, DrainTable(f, table, start, 0));
      all, newRows, revokeRows, marks, rows := true, [], [], [], [];
      while true
        invariant 0 <= pages < READ_MAX_PAGES
        invariant DrainTable(f, table, start, 0) == Before(rows, DrainTable(f, table, mark, pages))
        invariant Sorted(Tag(id, rows), newRows, revokeRows, marks)
        decreases READ_MAX_PAGES - pages
      {
        var view := f.page(table, pages);
        if view.None? {
          PageFails(f, table, mark, pages, rows);
          return false, true, newRows, revokeRows, marks, rows;
        }
        var fetched := ReadNew(view.value, mark);
        DrainOnePage(f, table, mark, pages);
        var news, revokes, ms := SortPage(id, fetched);
        SortedJoins(id, rows, newRows, revokeRows, marks, fetched, news, revokes, ms);
        newRows, revokeRows, marks := newRows + news, revokeRows + revokes, marks + ms;
        ghost var before := rows;
        rows := rows + fetched;
        pages := pages + 1;
        if |fetched| < READ_PAGE {
          BeforeLast(before, fetched, true);
          return true, true, newRows, revokeRows, marks, rows;
        }
        if pages >= READ_MAX_PAGES {
          BeforeLast(before, fetched, false);
          return true, false, newRows, revokeRows, marks, rows;
        }
        mark := fetched[|fetched| - 1].key;
        BeforeJoins(before, fetched, DrainTable(f, table, mark, pages));
      }
    }

    /** Opens one changed file and drains its tables. */
    method ReadOne(f: FileRound)
      returns (read: FileRead, newRows: seq<Tagged>, revokeRows: seq<Tagged>, marks: seq<Mark>)
      modifies pool
      ensures (pool.State(), read) == ReadFile(store, old(pool.State()), f)
      ensures read.FileRead? ==> Sorted(read.rows, newRows, revokeRows, marks)
    {
      newRows, revokeRows, marks := [], [], [];
      if f.key.None? {
        return Skipped, [], [], [];
      }
      var got := pool.Acquire(f.rel, f.key.value, f.opening);
      if got == BadKey {
        pool.Remember(f.rel);
        return Skipped, [], [], [];
      }
      if got == Unavailable {
        return Skipped, [], [], [];
      }
      ghost var pool1 := pool.State();
      var rows: seq<Tagged> := [];
      var all := true;
      for j := 0 to |f.tables|
        invariant pool.State() == pool1
        invariant DrainTables(store, f, f.tables) == After(rows, all, DrainTables(store, f, f.tables[j..]))
        invariant Sorted(rows, newRows, revokeRows, marks)
      {
        assert f.tables[j..][1..] == f.tables[j + 1..];
        var id := TableId(f.rel, f.tables[j]);
        var good, drained, news, revokes, ms, read := Drain(f, f.tables[j], MarkOf(store, id));
        if !good {
          return FileFailed, newRows, revokeRows, marks;
        }
        TagsConcat(rows, Tag(id, read));
        AfterJoins(rows, all, Tag(id, read), drained, DrainTables(store, f, f.tables[j + 1..]));
        newRows, revokeRows, marks := newRows + news, revokeRows + revokes, marks + ms;
        rows, all := rows + Tag(id, read), all && drained;
      }
      assert rows + [] == rows;
      read := FileRead(rows, all);
    }

    /** Phase 1: reads every changed file without touching the store. */
    method ReadPhase(work: seq<FileRound>)
      returns (ok: bool, newRows: seq<Tagged>, revokeRows: seq<Tagged>, marks: seq<Mark>, done: seq<string>, ghost rows: seq<Tagged>)
      modifies pool
      ensures (pool.State(), if ok then Some(Batch(rows, done)) else None) == ReadFiles(store, old(pool.State()), work)
      ensures Sorted(rows, newRows, revokeRows, marks)
    {
      newRows, revokeRows, marks, done, rows := [], [], [], [], [];
      assert work[0..] == work;
      ContinuedFromEmpty(ReadFiles(store, pool.State(), work).1);
      for i := 0 to |work|
        invariant
          var rest := ReadFiles(store, pool.State(), work[i..]);
          ReadFiles(store, old(pool.State()), work) == (rest.0, Continued(Batch(rows, done), rest.1))
        invariant Sorted(rows, newRows, revokeRows, marks)
      {
        assert work[i..][0] == work[i] && work[i..][1..] == work[i + 1..];
        var read, news, revokes, ms := ReadOne(work[i]);
        if read.FileFailed? {
          return false, newRows, revokeRows, marks, done, rows;
        }
        if read.Skipped? {
          continue;
        }
        ContinuedJoins(Batch(rows, done), work[i].rel, read, ReadFiles(store, pool.State(), work[i + 1..]).1);
        TagsConcat(rows, read.rows);
        newRows, revokeRows, marks := newRows + news, revokeRows + revokes, marks + ms;
        rows := rows + read.rows;
        if read.all {
          done := done + [work[i].rel];
        }
        assert done == done + [];
      }
      assert rows + [] == rows && done + [] == done;
      ok := true;
    }

    method InsertMarks(marks: seq<Mark>)
      modifies this`store
      ensures store == old(store).(watermarks := ApplyMarks(old(store.watermarks), marks))
    {
      for i := 0 to |marks|
        invariant store == old(store).(watermarks := ApplyMarks(old(store.watermarks), marks[..i]))
      {
        assert marks[..i + 1][..i] == marks[..i];
        store := store.(watermarks := store.watermarks[marks[i].table := marks[i].mark]);
      }
      assert marks[..|marks|] == marks;
    }

    method Emit(event: Event, now: nat)
      requires Valid() && bus.clock <= now
      modifies bus, bus.history
      ensures Valid() && bus.clock <= now
      ensures EventsOf(bus.sent) == old(EventsOf(bus.sent)) + [event]
    {
      var _ := bus.Publish(event, now);
    }

    method InsertRows(rows: seq<Tagged>, now: nat) returns (applied: nat)
      requires Valid() && bus.clock <= now
      modifies this`store, bus, bus.history
      ensures Valid() && bus.clock <= now
      ensures store == old(store).(held := ApplyRows(old(store.held), rows, old(store.myWxid)))
      ensures EventsOf(bus.sent) == old(EventsOf(bus.sent)) + NewEvents(rows, old(store.myWxid))
      ensures applied == |NewEvents(rows, old(store.myWxid))|
    {
      applied := 0;
      var me := store.myWxid;
      for i := 0 to |rows|
        invariant Valid() && bus.clock <= now
        invariant store == old(store).(held := ApplyRows(old(store.held), rows[..i], me))
        invariant EventsOf(bus.sent) == old(EventsOf(bus.sent)) + NewEvents(rows[..i], me)
        invariant applied == |NewEvents(rows[..i], me)|
      {
        var tagged := rows[i];
        assert rows[..i + 1][..i] == rows[..i];
        var record := ToRecord(tagged.row, me);
        store := store.(held := store.held[tagged.table := HeldOf(store, tagged.table) + [record]]);
        if !record.isSend {
          applied := applied + 1;
          Emit(New(tagged.table, tagged.row), now);
        }
        assert NewEvents(rows[..i + 1], me)
            == if record.isSend then NewEvents(rows[..i], me) else NewEvents(rows[..i], me) + [New(tagged.table, tagged.row)];
      }
      assert rows[..|rows|] == rows;
    }

    method PublishRevokes(rows: seq<Tagged>, now: nat) returns (applied: nat)
      requires Valid() && bus.clock <= now
      modifies bus, bus.history
      ensures Valid()
      ensures EventsOf(bus.sent) == old(EventsOf(bus.sent)) + RevokeEvents(rows)
      ensures applied == |RevokeEvents(rows)|
    {
      applied := 0;
      for i := 0 to |rows|
        invariant Valid() && bus.clock <= now
        invariant EventsOf(bus.sent) == old(EventsOf(bus.sent)) + RevokeEvents(rows[..i])
        invariant applied == |RevokeEvents(rows[..i])|
      {
        assert rows[..i + 1][..i] == rows[..i];
        if !rows[i].row.revoke || rows[i].row.key.createTime == 0 {
          continue;
        }
        applied := applied + 1;
        Emit(Revoke(rows[i].table, rows[i].row), now);
        assert RevokeEvents(rows[..i + 1]) == RevokeEvents(rows[..i]) + [Revoke(rows[i].table, rows[i].row)];
      }
      assert rows[..|rows|] == rows;
    }

    /** Phase 2: marks first, then ordinary rows with their events, then revocations. */
    method ApplyPhase(newRows: seq<Tagged>, revokeRows: seq<Tagged>, marks: seq<Mark>, ghost rows: seq<Tagged>, now: nat)
      returns (appliedNew: nat, appliedRevoke: nat)
      requires Valid() && bus.clock <= now
      requires Sorted(rows, newRows, revokeRows, marks)
      modifies this`store, bus, bus.history
      ensures Valid() && State() == Apply(old(State()), rows)
      ensures NewsIn(State().log) == old(NewsIn(State().log)) + appliedNew
      ensures RevokesIn(State().log) == old(RevokesIn(State().log)) + appliedRevoke
    {
      hide NewsIn, RevokesIn;
      AppliedCounts(State().log, newRows, store.myWxid, revokeRows);
      InsertMarks(marks);
      appliedNew := InsertRows(newRows, now);
      appliedRevoke := PublishRevokes(revokeRows, now);
    }

    /** Phase 4: stamps and baselines move only for files read to their end. */
    method AccountPhase(work: seq<FileRound>, done: seq<string>)
      modifies this`stamps, pool
      ensures (pool.State(), stamps) == Account(old(pool.State()), old(stamps), work, done)
    {
      for i := 0 to |work|
        invariant Account(old(pool.State()), old(stamps), work, done) == Account(pool.State(), stamps, work[i..], done)
      {
        var f := work[i];
        assert work[i..][0] == f && work[i..][1..] == work[i + 1..];
        if f.rel !in done {
          continue;
        }
        stamps := stamps[f.rel := f.stampAfter];
        pool.AdvanceDataVersion(f.rel, f.versionAfter);
      }
    }

    method PollOnce(r: Round, now: nat) returns (ok: bool, appliedNew: nat, appliedRevoke: nat)
      requires Valid() && bus.clock <= now
      modifies this, pool, bus, bus.history
      ensures Valid() && State() == Poll(old(State()), r)
      ensures
        var work := Work(old(pool.State()), old(stamps), r.files);
        ok <==> old(stopped) || work == [] || ReadFiles(old(store), old(pool.State()), work).1.Some?
      ensures NewsIn(State().log) == old(NewsIn(State().log)) + appliedNew
      ensures RevokesIn(State().log) == old(RevokesIn(State().log)) + appliedRevoke
    {
      hide Work, ReadFiles, Apply, Account, BufferOk, NewsIn, RevokesIn;
      if stopped {
        return true, 0, 0;
      }
      var work := ClassifyChanged(r.files);
      if work == [] {
        return true, 0, 0;
      }
      var good, newRows, revokeRows, marks, done, rows := ReadPhase(work);
      if r.retirement == BeforeApply {
        stopped := true;
      }
      if !good {
        return false, 0, 0;
      }
      if stopped {
        return true, 0, 0;
      }
      appliedNew, appliedRevoke := ApplyPhase(newRows, revokeRows, marks, rows, now);
      ok := true;
      if r.retirement == BeforeAccounts {
        stopped := true;
      }
      if stopped {
        return;
      }
      AccountPhase(work, done);
    }

    /** Loads every readable table of one file on top of what is built so far. */
    method LoadFile(start: Store, f: FileRound) returns (built: Store)
      requires start.myWxid == wxid
      ensures built == LoadTables(start, f, f.tables) && built.myWxid == wxid
    {
      built := start;
      for j := 0 to |f.tables|
        invariant built == LoadTables(start, f, f.tables[..j]) && built.myWxid == wxid
      {
        assert f.tables[..j + 1][..j] == f.tables[..j];
        var view := f.page(f.tables[j], 0);
        if view.None? {
          continue;
        }
        var id := TableId(f.rel, f.tables[j]);
        var records, mark := LoadMessageTable(view.value, wxid);
        var current := MarkOf(built, id);
        built := built.(held := built.held[id := HeldOf(built, id) + records],
                        watermarks := built.watermarks[id := MaxWatermark(current, mark)]);
      }
      assert f.tables[..|f.tables|] == f.tables;
    }

    /** Reads all files into a new index; connections opened on the way stay open. */
    method BuildIndex(files: seq<FileRound>) returns (built: Store)
      modifies pool
      ensures (built, pool.State()) == LoadFiles(Store(wxid, map[], map[]), old(pool.State()), files)
    {
      hide LoadTables, GetOrOpen;
      built := Store(wxid, map[], map[]);
      assert files[0..] == files;
      for i := 0 to |files|
        invariant built.myWxid == wxid
        invariant LoadFiles(Store(wxid, map[], map[]), old(pool.State()), files) == LoadFiles(built, pool.State(), files[i..])
      {
        var f := files[i];
        assert files[i..][0] == f && files[i..][1..] == files[i + 1..];
        if f.key.None? {
          continue;
        }
        var got := pool.Acquire(f.rel, f.key.value, f.opening);
        if got == Connected {
          built := LoadFile(built, f);
        }
      }
    }

    method SeedAllStamps(files: seq<FileRound>)
      modifies this`stamps
      ensures stamps == SeedStamps(pool.State(), files)
    {
      stamps := map[];
      for i := 0 to |files|
        invariant stamps == SeedStamps(pool.State(), files[..i])
      {
        assert files[..i + 1][..i] == files[..i];
        if pool.IsOpen(files[i].rel) {
          stamps := stamps[files[i].rel := files[i].stampAfter];
        }
      }
      assert files[..|files|] == files;
    }

    /** Rebuilds the index from scratch; a retirement during the build discards the result. */
    method FullBuild(r: FullRound) returns (processed: nat)
      requires Valid()
      modifies this, pool
      ensures Valid() && State() == FullSync(old(State()), r) && processed == |r.files|
    {
      hide LoadFiles, SeedStamps, BufferOk;
      var built := Store(wxid, map[], map[]);
      processed := |r.files|;
      if r.sections {
        built := BuildIndex(r.files);
      }
      if r.retired {
        stopped := true;
      }
      if stopped {
        return;
      }
      store := built;
      SeedAllStamps(r.files);
    }
  }

  // ---- plumbing for the loops --------------------------------------------------------

  function Continued(done: Batch, rest: Option<Batch>): Option<Batch> {
    if rest.None? then None else Some(Batch(done.rows + rest.value.rows, done.done + rest.value.done))
  }

  lemma BeforeJoins(a: seq<Row>, b: seq<Row>, rest: TableRead)
    ensures Before(a, Before(b, rest)) == Before(a + b, rest)
  {
    if rest.TableRead? {
      assert a + (b + rest.rows) == a + b + rest.rows;
    }
  }

  lemma AfterJoins(a: seq<Tagged>, allA: bool, b: seq<Tagged>, allB: bool, rest: FileRead)
    ensures After(a, allA, After(b, allB, rest)) == After(a + b, allA && allB, rest)
  {
    if rest.FileRead? {
      assert a + (b + rest.rows) == a + b + rest.rows;
    }
  }

  lemma ContinuedFromEmpty(rest: Option<Batch>)
    ensures Continued(Batch([], []), rest) == rest
  {
    if rest.Some? {
      assert [] + rest.value.rows == rest.value.rows && [] + rest.value.done == rest.value.done;
    }
  }

  lemma ContinuedJoins(done: Batch, rel: string, read: FileRead, rest: Option<Batch>)
    requires read.FileRead?
    ensures
      Continued(done, if rest.None? then None else Some(Joined(rel, read, rest.value)))
      == Continued(Batch(done.rows + read.rows, done.done + if read.all then [rel] else []), rest)
  {
    if rest.Some? {
      assert done.rows + (read.rows + rest.value.rows) == done.rows + read.rows + rest.value.rows;
      var mine := if read.all then [rel] else [];
      assert done.done + (mine + rest.value.done) == done.done + mine + rest.value.done;
    }
  }

  /** The three lists phase 1 keeps of the rows it has read. */
  ghost predicate Sorted(rows: seq<Tagged>, newRows: seq<Tagged>, revokeRows: seq<Tagged>, marks: seq<Mark>) {
    newRows == OrdinaryTags(rows) && revokeRows == SystemTags(rows) && marks == MarksOf(rows)
  }

  lemma SortedJoins(id: TableId, a: seq<Row>, news: seq<Tagged>, revokes: seq<Tagged>, marks: seq<Mark>,
                    b: seq<Row>, news': seq<Tagged>, revokes': seq<Tagged>, marks': seq<Mark>)
    requires Sorted(Tag(id, a), news, revokes, marks) && Sorted(Tag(id, b), news', revokes', marks')
    ensures Sorted(Tag(id, a + b), news + news', revokes + revokes', marks + marks')
  {
    assert Tag(id, a + b) == Tag(id, a) + Tag(id, b);
    TagsConcat(Tag(id, a), Tag(id, b));
  }

  lemma NothingRead(id: TableId, rest: TableRead)
    ensures Sorted(Tag(id, []), [], [], []) && Before([], rest) == rest
  {
    assert rest.TableRead? ==> [] + rest.rows == rest.rows;
  }

  lemma PageFails(f: FileRound, table: string, mark: Watermark, p: nat, rows: seq<Row>)
    requires p < READ_MAX_PAGES && f.page(table, p).None?
    ensures Before(rows, DrainTable(f, table, mark, p)) == TableFailed
  {
  }

  lemma BeforeLast(a: seq<Row>, b: seq<Row>, all: bool)
    ensures Before(a, TableRead(b, all)) == TableRead(a + b, all)
  {
  }

  lemma {:induction false} TagsConcat(a: seq<Tagged>, b: seq<Tagged>)
    ensures OrdinaryTags(a + b) == OrdinaryTags(a) + OrdinaryTags(b)
    ensures SystemTags(a + b) == SystemTags(a) + SystemTags(b)
    ensures MarksOf(a + b) == MarksOf(a) + MarksOf(b)
  {
    if b == [] {
      assert a + b == a;
    } else {
      assert (a + b)[..|a + b| - 1] == a + b[..|b| - 1];
      TagsConcat(a, b[..|b| - 1]);
    }
  }
}
