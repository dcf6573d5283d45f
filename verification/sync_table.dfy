/** What one pass of the sync engine does to a single table: the rows it reads are the next slice of
    the table, and applying them extends the stored rows, the watermark and the events by that slice. */
module SyncTables {
  import opened Wrappers
  import opened Index
  import opened SyncEngine

  /** Rows one table can lose to one round. */
  const ROUND_CAP: nat := READ_PAGE * READ_MAX_PAGES

  /** How many rows of a table lie at or below a mark. */
  function Position(rows: seq<Row>, mark: Watermark): (n: nat)
    ensures n <= |rows|
  {
    UptoLength(rows, mark);
    |Upto(rows, mark)|
  }

  lemma {:induction false} UptoLength(rows: seq<Row>, mark: Watermark)
    ensures |Upto(rows, mark)| + |Above(rows, mark)| == |rows|
  {
    if rows != [] {
      UptoLength(rows[..|rows| - 1], mark);
    }
  }

  lemma PositionOfMark(rows: seq<Row>, n: nat)
    requires Ascending(rows) && n <= |rows|
    ensures Position(rows, MarkAt(rows, n)) == n
    ensures Upto(rows, MarkAt(rows, n)) == rows[..n]
    ensures |Above(rows, MarkAt(rows, n))| == |rows| - n
  {
    MarkSplits(rows, n);
  }

  // ---- draining one table ------------------------------------------------------------

  /** The pages of a table, from page `p` on, lie between `low` and `high` and only ever grow. */
  ghost predicate PagesGrow(f: FileRound, table: string, low: seq<Row>, high: seq<Row>, p: nat) {
    && (forall n :: n >= p && f.page(table, n).Some? ==> low <= f.page(table, n).value <= high)
    && (forall m, n :: p <= m <= n && f.page(table, m).Some? && f.page(table, n).Some? ==>
          f.page(table, m).value <= f.page(table, n).value)
  }

  /** A read of at most `cap` rows took the slice of `high` that starts at `n`: everything `low` holds
      unless the cap was hit, and if the table stood still, exactly the backlog up to the cap. */
  ghost predicate IsSlice(read: TableRead, low: seq<Row>, high: seq<Row>, n: nat, cap: nat) {
    read.TableRead? ==>
      && n + |read.rows| <= |high|
      && read.rows == high[n..n + |read.rows|]
      && (read.all ==> |low| <= n + |read.rows|)
      && (!read.all ==> |read.rows| == cap)
      && (low == high ==> |read.rows| == Min(|high| - n, cap) && (read.all <==> |high| - n < cap))
  }

  lemma PagesGrowOn(f: FileRound, table: string, low: seq<Row>, high: seq<Row>, p: nat)
    requires PagesGrow(f, table, low, high, p) && f.page(table, p).Some?
    ensures
      var view := f.page(table, p).value;
      low <= view <= high && PagesGrow(f, table, view, high, p + 1)
  {
  }

  lemma NextMark(rows: seq<Row>, high: seq<Row>, n: nat)
    requires rows != [] && n + |rows| <= |high| && rows == high[n..n + |rows|]
    ensures rows[|rows| - 1].key == MarkAt(high, n + |rows|)
  {
    assert high[n..n + |rows|][|rows| - 1] == high[n + |rows| - 1];
  }

  lemma LastPage(rows: seq<Row>, low: seq<Row>, view: seq<Row>, high: seq<Row>, n: nat)
    requires low <= view <= high && n <= |low| && |rows| == Min(|view| - n, READ_PAGE) && rows == high[n..n + |rows|]
    ensures IsSlice(TableRead(rows, |rows| < READ_PAGE), low, high, n, READ_PAGE)
  {
  }

  /** A table that grows may end a read before the cap; only the last page allowed does so for the cap. */
  lemma SliceOfOne(read: TableRead, low: seq<Row>, high: seq<Row>, n: nat, p: nat)
    requires p < READ_MAX_PAGES && IsSlice(read, low, high, n, READ_PAGE) && read.TableRead?
    requires |read.rows| < READ_PAGE || p + 1 == READ_MAX_PAGES
    ensures IsSlice(read, low, high, n, READ_PAGE * (READ_MAX_PAGES - p))
  {
  }

  lemma FailedPage(f: FileRound, table: string, mark: Watermark, low: seq<Row>, high: seq<Row>, n: nat, p: nat, cap: nat)
    requires p < READ_MAX_PAGES && f.page(table, p).None?
    ensures IsSlice(DrainTable(f, table, mark, p), low, high, n, cap)
  {
  }

  /** The page of a read that ends with it. */
  lemma EndsWithPage(f: FileRound, table: string, low: seq<Row>, high: seq<Row>, n: nat, p: nat)
    requires p < READ_MAX_PAGES && Ascending(high) && n <= |low| && f.page(table, p).Some?
    requires low <= f.page(table, p).value <= high
    requires |ReadNew(f.page(table, p).value, MarkAt(high, n))| < READ_PAGE || p + 1 == READ_MAX_PAGES
    ensures IsSlice(DrainTable(f, table, MarkAt(high, n), p), low, high, n, READ_PAGE * (READ_MAX_PAGES - p))
  {
    hide ReadNew, DrainTable, IsSlice, Ascending, Before, MarkAt;
    var view := f.page(table, p).value;
    FirstPage(view, high, n);
    DrainOnePage(f, table, MarkAt(high, n), p);
    var rows := ReadNew(view, MarkAt(high, n));
    LastPage(rows, low, view, high, n);
    SliceOfOne(TableRead(rows, |rows| < READ_PAGE), low, high, n, p);
  }

  lemma {:induction false} DrainReadsSlice(f: FileRound, table: string, low: seq<Row>, high: seq<Row>, n: nat, p: nat)
    requires p < READ_MAX_PAGES && Ascending(high) && low <= high && n <= |low|
    requires PagesGrow(f, table, low, high, p)
    ensures IsSlice(DrainTable(f, table, MarkAt(high, n), p), low, high, n, READ_PAGE * (READ_MAX_PAGES - p))
    decreases READ_MAX_PAGES - p
  {
    hide ReadNew, DrainTable, IsSlice, Ascending, Before, MarkAt;
    if f.page(table, p).None? {
      FailedPage(f, table, MarkAt(high, n), low, high, n, p, READ_PAGE * (READ_MAX_PAGES - p));
    } else {
      var view := f.page(table, p).value;
      var rows := ReadNew(view, MarkAt(high, n));
      PagesGrowOn(f, table, low, high, p);
      hide PagesGrow;
      FirstPage(view, high, n);
      if |rows| == READ_PAGE && p + 1 < READ_MAX_PAGES {
        NextMark(rows, high, n);
        DrainReadsSlice(f, table, view, high, n + READ_PAGE, p + 1);
        DrainOnePage(f, table, MarkAt(high, n), p);
        var cap := READ_PAGE * (READ_MAX_PAGES - p - 1);
        SliceExtends(rows, DrainTable(f, table, MarkAt(high, n + READ_PAGE), p + 1), low, view, high, n, cap);
        assert READ_PAGE + cap == READ_PAGE * (READ_MAX_PAGES - p);
      } else {
        EndsWithPage(f, table, low, high, n, p);
      }
    }
  }

  /** A full page followed by a slice is a slice. */
  lemma SliceExtends(rows: seq<Row>, rest: TableRead, low: seq<Row>, view: seq<Row>, high: seq<Row>, n: nat, cap: nat)
    requires low <= view <= high && n + |rows| <= |view| && rows == high[n..n + |rows|]
    requires IsSlice(rest, view, high, n + |rows|, cap)
    ensures IsSlice(Before(rows, rest), low, high, n, |rows| + cap)
  {
    if rest.TableRead? {
      var m := n + |rows|;
      assert high[n..m] + high[m..m + |rest.rows|] == high[n..m + |rest.rows|];
      assert low == high ==> view == high;
    }
  }

  lemma FirstPage(view: seq<Row>, high: seq<Row>, n: nat)
    requires Ascending(high) && view <= high && n <= |view|
    ensures
      var rows := ReadNew(view, MarkAt(high, n));
      |rows| == Min(|view| - n, READ_PAGE) && rows == high[n..n + |rows|]
  {
    assert Ascending(view) && MarkAt(high, n) == MarkAt(view, n);
    ReadNewIsNextSlice(view, n);
  }

  // ---- rows of one table among the rows of a pass ---------------------------------------

  function Of(rows: seq<Tagged>, t: TableId): seq<Row> {
    if rows == [] then []
    else
      var rest := Of(rows[..|rows| - 1], t);
      if rows[|rows| - 1].table == t then rest + [rows[|rows| - 1].row] else rest
  }

  lemma {:induction false} OfConcat(a: seq<Tagged>, b: seq<Tagged>, t: TableId)
    ensures Of(a + b, t) == Of(a, t) + Of(b, t)
  {
    if b == [] {
      assert a + b == a;
    } else {
      assert (a + b)[..|a + b| - 1] == a + b[..|b| - 1];
      OfConcat(a, b[..|b| - 1], t);
    }
  }

  lemma {:induction false} OfTag(id: TableId, rows: seq<Row>, t: TableId)
    ensures Of(Tag(id, rows), t) == if t == id then rows else []
  {
    if rows != [] {
      assert Tag(id, rows)[..|rows| - 1] == Tag(id, rows[..|rows| - 1]);
      OfTag(id, rows[..|rows| - 1], t);
    }
  }

  // ---- applying a pass, seen from one table ------------------------------------------------

  function OrdinaryRecords(held: seq<Record>): seq<Record> {
    if held == [] then []
    else
      var rest := OrdinaryRecords(held[..|held| - 1]);
      if IsSystem(held[|held| - 1].row) then rest else rest + [held[|held| - 1]]
  }

  function Incoming(rows: seq<Row>, myWxid: string): seq<Row> {
    if rows == [] then []
    else
      var rest := Incoming(rows[..|rows| - 1], myWxid);
      if IsSend(rows[|rows| - 1].sender, myWxid) then rest else rest + [rows[|rows| - 1]]
  }

  /** The rows of one table that were announced as new. */
  function Announced(log: seq<Event>, t: TableId): seq<Row> {
    if log == [] then []
    else
      var last := log[|log| - 1];
      var rest := Announced(log[..|log| - 1], t);
      if last.New? && last.table == t then rest + [last.row] else rest
  }

  /** The revocations a pass announces: a revoking row without a time is passed over. */
  function Revocations(rows: seq<Row>): seq<Row> {
    if rows == [] then []
    else
      var rest, last := Revocations(rows[..|rows| - 1]), rows[|rows| - 1];
      if last.revoke && last.key.createTime != 0 then rest + [last] else rest
  }

  /** The rows of one table that were announced as revocations. */
  function Revoked(log: seq<Event>, t: TableId): seq<Row> {
    if log == [] then []
    else
      var last := log[|log| - 1];
      var rest := Revoked(log[..|log| - 1], t);
      if last.Revoke? && last.table == t then rest + [last.row] else rest
  }

  lemma {:induction false} OrdinaryCount(rows: seq<Row>, row: Row)
    ensures multiset(Ordinary(rows))[row] == if IsSystem(row) then 0 else multiset(rows)[row]
  {
    if rows != [] {
      var init, last := rows[..|rows| - 1], rows[|rows| - 1];
      OrdinaryCount(init, row);
      assert rows == init + [last];
      hide IsSystem;
    }
  }

  lemma {:induction false} IncomingCount(rows: seq<Row>, me: string, row: Row)
    ensures multiset(Incoming(rows, me))[row] == if IsSend(row.sender, me) then 0 else multiset(rows)[row]
  {
    if rows != [] {
      var init, last := rows[..|rows| - 1], rows[|rows| - 1];
      IncomingCount(init, me, row);
      assert rows == init + [last];
      IncomingSnoc(init, last, me);
      hide IsSend, Incoming;
    }
  }

  lemma {:induction false} RevocationsCount(rows: seq<Row>, row: Row)
    ensures multiset(Revocations(rows))[row] == if row.revoke && row.key.createTime != 0 then multiset(rows)[row] else 0
  {
    if rows != [] {
      var init, last := rows[..|rows| - 1], rows[|rows| - 1];
      RevocationsCount(init, row);
      assert rows == init + [last];
    }
  }

  /** What is announced of a stretch of rows, in plain words: of the rows that are neither notices (base
      types 10000 and 10002) nor revocations, those the account did not send; and the revocations that
      carry a time. */
  lemma WhatIsAnnounced(rows: seq<Row>, me: string, row: Row)
    ensures
      multiset(Incoming(Ordinary(rows), me))[row]
      == if BaseType(row.localType) != 10000 && BaseType(row.localType) != 10002 && !row.revoke
            && (row.sender == "" || row.sender != me)
         then multiset(rows)[row] else 0
    ensures multiset(Revocations(rows))[row] == if row.revoke && row.key.createTime != 0 then multiset(rows)[row] else 0
  {
    OrdinaryCount(rows, row);
    IncomingCount(Ordinary(rows), me, row);
    RevocationsCount(rows, row);
    hide Ordinary, Incoming, Revocations, BaseType;
  }

  /** And in the order of the table. */
  lemma {:induction false} AnnouncedInOrder(rows: seq<Row>, me: string)
    requires Ascending(rows)
    ensures Ascending(Incoming(Ordinary(rows), me)) && Ascending(Revocations(rows))
    ensures forall row :: row in Incoming(Ordinary(rows), me) || row in Revocations(rows) ==> row in rows
  {
    if rows != [] {
      var init, last := rows[..|rows| - 1], rows[|rows| - 1];
      AnnouncedInOrder(init, me);
      forall row | row in init ensures Less(row.key, last.key) {
        var i :| 0 <= i < |init| && init[i] == row;
        assert rows[i] == row;
      }
      if !IsSystem(last) {
        IncomingSnoc(Ordinary(init), last, me);
      }
      hide Incoming, Ordinary, Less;
      AscendingMore(Incoming(Ordinary(init), me), last);
      AscendingMore(Revocations(init), last);
    }
  }

  lemma AscendingMore(rows: seq<Row>, last: Row)
    requires Ascending(rows) && Less(ZERO, last.key) && forall row :: row in rows ==> Less(row.key, last.key)
    ensures Ascending(rows + [last])
  {
    hide Less;
  }

  lemma {:induction false} MarksOfTable(marks: map<TableId, Watermark>, rows: seq<Tagged>, t: TableId)
    ensures
      var after := ApplyMarks(marks, MarksOf(rows));
      var got := Of(rows, t);
      && (t in after <==> t in marks || got != [])
      && (t in after ==> after[t] == if got == [] then marks[t] else got[|got| - 1].key)
  {
    if rows != [] {
      assert MarksOf(rows)[..|rows| - 1] == MarksOf(rows[..|rows| - 1]);
      MarksOfTable(marks, rows[..|rows| - 1], t);
    }
  }

  lemma {:induction false} RowsOfTable(held: map<TableId, seq<Record>>, rows: seq<Tagged>, me: string, t: TableId)
    ensures HeldIn(ApplyRows(held, OrdinaryTags(rows), me), t) == HeldIn(held, t) + ToRecords(Ordinary(Of(rows, t)), me)
  {
    if rows == [] {
      assert ToRecords([], me) == [];
    } else {
      var init, last := rows[..|rows| - 1], rows[|rows| - 1];
      RowsOfTable(held, init, me, t);
      hide ApplyRows, Ordinary, ToRecords, ToRecord, HeldIn, IsSystem;
      if last.table == t {
        OrdinarySnoc(Of(init, t), last.row);
      }
      if !IsSystem(last.row) {
        ApplyRowsSnoc(held, OrdinaryTags(init), last, me, t);
        ToRecordsSnoc(Ordinary(Of(init, t)), last.row, me);
        RecordsAssociate(HeldIn(held, t), ToRecords(Ordinary(Of(init, t)), me), [ToRecord(last.row, me)]);
      }
    }
  }

  lemma RecordsAssociate(a: seq<Record>, b: seq<Record>, c: seq<Record>)
    ensures a + (b + c) == a + b + c
  {
  }

  lemma ApplyRowsSnoc(held: map<TableId, seq<Record>>, rows: seq<Tagged>, last: Tagged, me: string, t: TableId)
    ensures
      var before := HeldIn(ApplyRows(held, rows, me), t);
      HeldIn(ApplyRows(held, rows + [last], me), t)
      == if last.table == t then before + [ToRecord(last.row, me)] else before
  {
    assert (rows + [last])[..|rows|] == rows;
  }

  lemma ToRecordsSnoc(rows: seq<Row>, last: Row, me: string)
    ensures ToRecords(rows + [last], me) == ToRecords(rows, me) + [ToRecord(last, me)]
  {
  }

  lemma {:induction false} AnnouncedConcat(a: seq<Event>, b: seq<Event>, t: TableId)
    ensures Announced(a + b, t) == Announced(a, t) + Announced(b, t)
  {
    if b == [] {
      assert a + b == a;
    } else {
      assert (a + b)[..|a + b| - 1] == a + b[..|b| - 1];
      AnnouncedConcat(a, b[..|b| - 1], t);
    }
  }

  lemma AnnouncedSnoc(log: seq<Event>, last: Event, t: TableId)
    ensures Announced(log + [last], t) == if last.New? && last.table == t then Announced(log, t) + [last.row] else Announced(log, t)
  {
    assert (log + [last])[..|log|] == log;
  }

  lemma IncomingSnoc(rows: seq<Row>, last: Row, me: string)
    ensures Incoming(rows + [last], me) == if IsSend(last.sender, me) then Incoming(rows, me) else Incoming(rows, me) + [last]
  {
    assert (rows + [last])[..|rows|] == rows;
  }

  lemma NewEventsSnoc(rows: seq<Tagged>, last: Tagged, me: string)
    ensures
      NewEvents(rows + [last], me)
      == if IsSend(last.row.sender, me) then NewEvents(rows, me) else NewEvents(rows, me) + [New(last.table, last.row)]
  {
    assert (rows + [last])[..|rows|] == rows;
  }

  lemma {:induction false} NewEventsOfTable(rows: seq<Tagged>, me: string, t: TableId)
    ensures Announced(NewEvents(OrdinaryTags(rows), me), t) == Incoming(Ordinary(Of(rows, t)), me)
  {
    if rows != [] {
      var init, last := rows[..|rows| - 1], rows[|rows| - 1];
      NewEventsOfTable(init, me, t);
      if last.table == t {
        OrdinarySnoc(Of(init, t), last.row);
      }
      if !IsSystem(last.row) {
        NewEventsSnoc(OrdinaryTags(init), last, me);
        IncomingSnoc(Ordinary(Of(init, t)), last.row, me);
        AnnouncedSnoc(NewEvents(OrdinaryTags(init), me), New(last.table, last.row), t);
      }
    }
  }

  lemma {:induction false} RevokedConcat(a: seq<Event>, b: seq<Event>, t: TableId)
    ensures Revoked(a + b, t) == Revoked(a, t) + Revoked(b, t)
  {
    if b == [] {
      assert a + b == a;
    } else {
      assert (a + b)[..|a + b| - 1] == a + b[..|b| - 1];
      RevokedConcat(a, b[..|b| - 1], t);
    }
  }

  lemma RevokedSnoc(log: seq<Event>, last: Event, t: TableId)
    ensures Revoked(log + [last], t) == if last.Revoke? && last.table == t then Revoked(log, t) + [last.row] else Revoked(log, t)
  {
    assert (log + [last])[..|log|] == log;
  }

  lemma RevocationsSnoc(rows: seq<Row>, last: Row)
    ensures Revocations(rows + [last])
         == if last.revoke && last.key.createTime != 0 then Revocations(rows) + [last] else Revocations(rows)
  {
    assert (rows + [last])[..|rows|] == rows;
  }

  lemma RevokeEventsSnoc(rows: seq<Tagged>, last: Tagged)
    ensures
      RevokeEvents(rows + [last])
      == if last.row.revoke && last.row.key.createTime != 0 then RevokeEvents(rows) + [Revoke(last.table, last.row)]
         else RevokeEvents(rows)
  {
    assert (rows + [last])[..|rows|] == rows;
  }

  /** What the system rows of a pass announce of one table is what its rows there ask for. */
  lemma {:induction false} RevokeEventsOfTable(rows: seq<Tagged>, t: TableId)
    ensures Revoked(RevokeEvents(SystemTags(rows)), t) == Revocations(Of(rows, t))
  {
    if rows != [] {
      var init, last := rows[..|rows| - 1], rows[|rows| - 1];
      RevokeEventsOfTable(init, t);
      if last.table == t {
        RevocationsSnoc(Of(init, t), last.row);
      }
      if last.row.revoke {
        RevokeEventsSnoc(SystemTags(init), last);
        RevokedSnoc(RevokeEvents(SystemTags(init)), Revoke(last.table, last.row), t);
      } else if IsSystem(last.row) {
        RevokeEventsSnoc(SystemTags(init), last);
      }
    }
  }

  lemma {:induction false} NewsRevokeNothing(rows: seq<Tagged>, me: string, t: TableId)
    ensures Revoked(NewEvents(rows, me), t) == []
  {
    if rows != [] {
      var init, last := rows[..|rows| - 1], rows[|rows| - 1];
      NewsRevokeNothing(init, me, t);
      RevokedSnoc(NewEvents(init, me), New(last.table, last.row), t);
    }
  }

  lemma {:induction false} RevokesAnnounceNothing(rows: seq<Tagged>, t: TableId)
    ensures Announced(RevokeEvents(rows), t) == []
  {
    if rows != [] {
      var init, last := rows[..|rows| - 1], rows[|rows| - 1];
      RevokesAnnounceNothing(init, t);
      AnnouncedSnoc(RevokeEvents(init), Revoke(last.table, last.row), t);
    }
  }

  /** Applying a pass moves each table by exactly the rows read of it. */
  lemma ApplyOnTable(e: Engine, rows: seq<Tagged>, t: TableId)
    ensures
      var after := Apply(e, rows);
      var got := Of(rows, t);
      && MarkOf(after.store, t) == (if got == [] then MarkOf(e.store, t) else got[|got| - 1].key)
      && HeldOf(after.store, t) == HeldOf(e.store, t) + ToRecords(Ordinary(got), e.store.myWxid)
      && Announced(after.log, t) == Announced(e.log, t) + Incoming(Ordinary(got), e.store.myWxid)
      && Revoked(after.log, t) == Revoked(e.log, t) + Revocations(got)
  {
    var me := e.store.myWxid;
    MarksOfTable(e.store.watermarks, rows, t);
    RowsOfTable(e.store.held, rows, me, t);
    hide ApplyRows, ApplyMarks, MarksOf, NewEvents, RevokeEvents, OrdinaryTags, SystemTags;
    LogOfTable(e.log, rows, me, t);
  }

  lemma LogOfTable(log: seq<Event>, rows: seq<Tagged>, me: string, t: TableId)
    ensures
      var after, got := log + NewEvents(OrdinaryTags(rows), me) + RevokeEvents(SystemTags(rows)), Of(rows, t);
      && Announced(after, t) == Announced(log, t) + Incoming(Ordinary(got), me)
      && Revoked(after, t) == Revoked(log, t) + Revocations(got)
  {
    hide Announced, Revoked, NewEvents, RevokeEvents, OrdinaryTags, SystemTags, Of, Incoming, Ordinary, Revocations;
    var news, revokes := NewEvents(OrdinaryTags(rows), me), RevokeEvents(SystemTags(rows));
    AnnouncedConcat(log + news, revokes, t);
    AnnouncedConcat(log, news, t);
    NewEventsOfTable(rows, me, t);
    RevokesAnnounceNothing(SystemTags(rows), t);
    RevokedConcat(log + news, revokes, t);
    RevokedConcat(log, news, t);
    RevokeEventsOfTable(rows, t);
    NewsRevokeNothing(OrdinaryTags(rows), me, t);
  }

  lemma {:induction false} OrdinaryRecordsOf(held: seq<Record>, rows: seq<Row>, me: string)
    ensures OrdinaryRecords(held + ToRecords(rows, me)) == OrdinaryRecords(held) + ToRecords(Ordinary(rows), me)
  {
    if rows == [] {
      assert held + ToRecords(rows, me) == held;
    } else {
      var init := rows[..|rows| - 1];
      var all := held + ToRecords(rows, me);
      assert all[..|all| - 1] == held + ToRecords(init, me);
      OrdinaryRecordsOf(held, init, me);
    }
  }
}
