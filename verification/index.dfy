/** Message tables, watermarks and the two ways of reading a table
    (`src/store/index.rs`): the full load and the paged incremental read.

    A message table is the sequence of its rows in `(create_time, sort_seq, local_id)` order. */
module Index {
  import opened Wrappers

  /** Largest number of rows one incremental read returns. */
  const READ_PAGE: nat := 5000

  datatype Watermark = Watermark(createTime: int, sortSeq: int, localId: int)

  /** The watermark of a table nothing has been read from. */
  const ZERO: Watermark := Watermark(0, 0, 0)

  predicate Less(a: Watermark, b: Watermark) {
    || a.createTime < b.createTime
    || (a.createTime == b.createTime && a.sortSeq < b.sortSeq)
    || (a.createTime == b.createTime && a.sortSeq == b.sortSeq && a.localId < b.localId)
  }

  datatype Row = Row(key: Watermark, localType: int, revoke: bool, sender: string, content: string)

  /** The low half of a packed `local_type`; a negative value is passed through. */
  function BaseType(localType: int): int {
    if localType < 0 then localType else localType % 0x1_0000_0000
  }

  /** A packed type is a base type of 32 bits under a sub-type; the base type comes out. */
  lemma PackedType(subType: nat, base: nat)
    requires base < 0x1_0000_0000
    ensures BaseType(subType * 0x1_0000_0000 + base) == base
  {
  }

  /** System rows (notices and revocations) leave the ordinary path of a poll. */
  predicate IsSystem(row: Row) {
    BaseType(row.localType) == 10000 || BaseType(row.localType) == 10002 || row.revoke
  }

  function Ordinary(rows: seq<Row>): seq<Row> {
    if rows == [] then []
    else
      var rest := Ordinary(rows[..|rows| - 1]);
      if IsSystem(rows[|rows| - 1]) then rest else rest + [rows[|rows| - 1]]
  }

  lemma OrdinarySnoc(rows: seq<Row>, last: Row)
    ensures Ordinary(rows + [last]) == if IsSystem(last) then Ordinary(rows) else Ordinary(rows) + [last]
  {
    assert (rows + [last])[..|rows|] == rows;
  }

  lemma {:induction false} OrdinaryConcat(a: seq<Row>, b: seq<Row>)
    ensures Ordinary(a + b) == Ordinary(a) + Ordinary(b)
  {
    if b == [] {
      assert a + b == a;
    } else {
      assert (a + b)[..|a + b| - 1] == a + b[..|b| - 1];
      OrdinaryConcat(a, b[..|b| - 1]);
    }
  }

  // ---- tables that obey the append-only key order ---------------------------------

  /** Keys strictly ascend and lie above the zero watermark. */
  ghost predicate Ascending(rows: seq<Row>) {
    && (forall i :: 0 <= i < |rows| ==> Less(ZERO, rows[i].key))
    && (forall i, j :: 0 <= i < j < |rows| ==> Less(rows[i].key, rows[j].key))
  }

  /** The watermark after reading the first `n` rows. */
  function MarkAt(rows: seq<Row>, n: nat): Watermark
    requires n <= |rows|
  {
    if n == 0 then ZERO else rows[n - 1].key
  }

  function Upto(rows: seq<Row>, mark: Watermark): seq<Row> {
    if rows == [] then []
    else
      var rest := Upto(rows[..|rows| - 1], mark);
      if Less(mark, rows[|rows| - 1].key) then rest else rest + [rows[|rows| - 1]]
  }

  function Above(rows: seq<Row>, mark: Watermark): seq<Row> {
    if rows == [] then []
    else
      var rest := Above(rows[..|rows| - 1], mark);
      if Less(mark, rows[|rows| - 1].key) then rest + [rows[|rows| - 1]] else rest
  }

  /** A mark cuts an ascending table in two: what lies at or below it is a prefix. */
  lemma {:induction false} MarkSplits(rows: seq<Row>, n: nat)
    requires Ascending(rows) && n <= |rows|
    ensures Upto(rows, MarkAt(rows, n)) == rows[..n]
    ensures Above(rows, MarkAt(rows, n)) == rows[n..]
  {
    SplitPrefix(rows, |rows|, n);
    assert rows[..|rows|] == rows;
  }

  lemma MarkNotBelow(rows: seq<Row>, n: nat, i: nat)
    requires Ascending(rows) && i < n <= |rows|
    ensures !Less(MarkAt(rows, n), rows[i].key)
  {
  }

  lemma {:induction false} SplitPrefix(rows: seq<Row>, k: nat, n: nat)
    requires Ascending(rows) && n <= |rows| && k <= |rows|
    ensures Upto(rows[..k], MarkAt(rows, n)) == rows[..if k < n then k else n]
    ensures Above(rows[..k], MarkAt(rows, n)) == if k < n then [] else rows[n..k]
  {
    if k > 0 {
      SplitPrefix(rows, k - 1, n);
      var head, last := rows[..k], rows[k - 1];
      assert head[..k - 1] == rows[..k - 1] && head[k - 1] == last;
      if k > n {
        assert Less(MarkAt(rows, n), last.key);
        NextOfSlice(rows, n, k - 1);
      } else {
        assert !Less(MarkAt(rows, n), last.key) by { MarkNotBelow(rows, n, k - 1); }
        NextOfSlice(rows, 0, k - 1);
      }
    }
  }

  lemma NextOfSlice(rows: seq<Row>, n: nat, k: nat)
    requires n <= k < |rows|
    ensures rows[n..k] + [rows[k]] == rows[n..k + 1]
    ensures rows[..k] + [rows[k]] == rows[..k + 1]
  {
  }

  // ---- incremental read ------------------------------------------------------------

  /** `WHERE key > mark ORDER BY key LIMIT READ_PAGE` over a table in key order. */
  function ReadNew(table: seq<Row>, mark: Watermark): seq<Row> {
    var above := Above(table, mark);
    above[..Min(|above|, READ_PAGE)]
  }

  /** From a mark left by an earlier read, a page is the next slice of the table. */
  lemma ReadNewIsNextSlice(rows: seq<Row>, n: nat)
    requires Ascending(rows) && n <= |rows|
    ensures ReadNew(rows, MarkAt(rows, n)) == rows[n..Min(|rows|, n + READ_PAGE)]
  {
    MarkSplits(rows, n);
  }

  // ---- full load -------------------------------------------------------------------

  function MaxWatermark(a: Watermark, b: Watermark): (m: Watermark)
    ensures !Less(m, a) && !Less(m, b) && (m == a || m == b)
  {
    if Less(a, b) then b else a
  }

  /** One stored message: the row and whether the account owner sent it. */
  datatype Record = Record(row: Row, isSend: bool)

  predicate IsSend(sender: string, myWxid: string) {
    sender != "" && sender == myWxid
  }

  function ToRecord(row: Row, myWxid: string): Record {
    Record(row, IsSend(row.sender, myWxid))
  }

  function ToRecords(rows: seq<Row>, myWxid: string): seq<Record> {
    seq(|rows|, i requires 0 <= i < |rows| => ToRecord(rows[i], myWxid))
  }

  /** The greatest key of a table, or the zero watermark. */
  function MaxKey(rows: seq<Row>): Watermark {
    if rows == [] then ZERO else MaxWatermark(MaxKey(rows[..|rows| - 1]), rows[|rows| - 1].key)
  }

  lemma {:induction false} MaxKeyOfAscending(rows: seq<Row>, n: nat)
    requires Ascending(rows) && n <= |rows|
    ensures MaxKey(rows[..n]) == MarkAt(rows, n)
  {
    if n > 0 {
      MaxKeyOfAscending(rows, n - 1);
      assert rows[..n][..n - 1] == rows[..n - 1];
    }
  }

  /** Reads a whole table; the watermark is the greatest key seen. */
  method LoadMessageTable(table: seq<Row>, myWxid: string) returns (records: seq<Record>, mark: Watermark)
    ensures records == ToRecords(table, myWxid)
    ensures |records| == |table| && forall i :: 0 <= i < |table| ==>
              records[i].row == table[i] && (records[i].isSend <==> table[i].sender != "" && table[i].sender == myWxid)
    ensures mark == ZERO || exists i :: 0 <= i < |table| && mark == table[i].key
    ensures !Less(mark, ZERO) && forall i :: 0 <= i < |table| ==> !Less(mark, table[i].key)
    ensures mark == MaxKey(table)
    ensures forall i :: 0 <= i < |table| ==>
              var key := table[i].key;
              && key.createTime <= mark.createTime
              && (key.createTime == mark.createTime ==> key.sortSeq <= mark.sortSeq)
              && (key.createTime == mark.createTime && key.sortSeq == mark.sortSeq ==> key.localId <= mark.localId)
  {
    records, mark := [], ZERO;
    for i := 0 to |table|
      invariant records == ToRecords(table[..i], myWxid)
      invariant mark == ZERO || exists j :: 0 <= j < i && mark == table[j].key
      invariant !Less(mark, ZERO) && forall j :: 0 <= j < i ==> !Less(mark, table[j].key)
      invariant mark == MaxKey(table[..i])
    {
      assert table[..i + 1][..i] == table[..i];
      mark := MaxWatermark(mark, table[i].key);
      records := records + [ToRecord(table[i], myWxid)];
    }
    assert table[..|table|] == table;
  }

  // ---- a table without a sort_seq column -------------------------------------------

  /** The key the SQL comparison sees: without the column, `local_id` fills its slot. */
  function SqlKey(row: Row, hasSeq: bool): Watermark {
    if hasSeq then row.key else row.key.(sortSeq := row.key.localId)
  }

  /** The key the extracted record carries, which becomes the watermark: without the column it is 0. */
  function RecordedKey(row: Row, hasSeq: bool): Watermark {
    if hasSeq then row.key else row.key.(sortSeq := 0)
  }

  /** A row just read compares above its own mark exactly when the column is missing and its `local_id`
      is positive, as a row id always is. */
  lemma RereadIffNoSeqColumn(row: Row, hasSeq: bool)
    ensures Less(RecordedKey(row, hasSeq), SqlKey(row, hasSeq)) <==> !hasSeq && row.key.localId > 0
  {
  }

  function AboveNoSeq(rows: seq<Row>, mark: Watermark): seq<Row> {
    if rows == [] then []
    else
      var rest := AboveNoSeq(rows[..|rows| - 1], mark);
      if Less(mark, SqlKey(rows[|rows| - 1], false)) then rest + [rows[|rows| - 1]] else rest
  }

  /** The incremental read of such a table, in the order its rows are given. */
  function ReadNewNoSeq(table: seq<Row>, mark: Watermark): seq<Row> {
    var above := AboveNoSeq(table, mark);
    above[..Min(|above|, READ_PAGE)]
  }

  /** The order of a table without the column, whose row ids are positive. */
  ghost predicate AscendingNoSeq(rows: seq<Row>) {
    && (forall i :: 0 <= i < |rows| ==> rows[i].key.localId > 0)
    && (forall i, j :: 0 <= i < j < |rows| ==> Less(SqlKey(rows[i], false), SqlKey(rows[j], false)))
  }

  /** Where the second `t` starts in a table. */
  function SecondStart(rows: seq<Row>, t: int): (n: nat)
    ensures n <= |rows|
  {
    if rows == [] then 0
    else if rows[|rows| - 1].key.createTime < t then |rows| else SecondStart(rows[..|rows| - 1], t)
  }

  lemma {:induction false} SecondStartMeans(rows: seq<Row>, t: int)
    requires AscendingNoSeq(rows)
    ensures forall i :: 0 <= i < |rows| ==> (i < SecondStart(rows, t) <==> rows[i].key.createTime < t)
  {
    if rows != [] {
      var init, last := rows[..|rows| - 1], rows[|rows| - 1];
      SecondStartMeans(init, t);
      forall i | 0 <= i < |rows| ensures i < SecondStart(rows, t) <==> rows[i].key.createTime < t {
        assert i < |rows| - 1 ==> Less(SqlKey(rows[i], false), SqlKey(last, false)) && rows[i] == init[i];
      }
    }
  }

  lemma {:induction false} AboveIsTail(rows: seq<Row>, k: nat, mark: Watermark, n: nat)
    requires k <= |rows| && n <= |rows|
    requires forall i :: 0 <= i < |rows| ==> (n <= i <==> Less(mark, SqlKey(rows[i], false)))
    ensures AboveNoSeq(rows[..k], mark) == if k < n then [] else rows[n..k]
  {
    if k > 0 {
      AboveIsTail(rows, k - 1, mark, n);
      assert rows[..k][..k - 1] == rows[..k - 1];
      if n < k {
        NextOfSlice(rows, n, k - 1);
      }
    }
  }

  /** Without the column a read starts over at the second of the row the mark was left by, so every row
      of that second read before is read again. */
  lemma RereadsLastSecond(rows: seq<Row>, n: nat)
    requires AscendingNoSeq(rows) && 0 < n <= |rows|
    ensures
      var mark := RecordedKey(rows[n - 1], false);
      var start := SecondStart(rows, mark.createTime);
      start < n && ReadNewNoSeq(rows, mark) == rows[start..Min(|rows|, start + READ_PAGE)]
  {
    var mark := RecordedKey(rows[n - 1], false);
    var start := SecondStart(rows, mark.createTime);
    SecondStartMeans(rows, mark.createTime);
    AboveIsTail(rows, |rows|, mark, start);
    assert rows[..|rows|] == rows;
  }

  /** Where such a read leaves the mark: past the rows read before if and only if there are more, and less
      than a page of the last second was among those read. Otherwise every later read, and every pass, gives
      the same rows again. */
  lemma ReadsOnIff(rows: seq<Row>, n: nat)
    requires AscendingNoSeq(rows) && 0 < n <= |rows|
    ensures
      var start := SecondStart(rows, rows[n - 1].key.createTime);
      var next := start + |ReadNewNoSeq(rows, RecordedKey(rows[n - 1], false))|;
      && start < next <= |rows|
      && (next > n <==> n < |rows| && n - start < READ_PAGE)
      && (next <= n ==> ReadNewNoSeq(rows, RecordedKey(rows[next - 1], false)) == ReadNewNoSeq(rows, RecordedKey(rows[n - 1], false)))
  {
    var start := SecondStart(rows, rows[n - 1].key.createTime);
    RereadsLastSecond(rows, n);
    var next := Min(|rows|, start + READ_PAGE);
    if next <= n {
      SecondStartMeans(rows, rows[n - 1].key.createTime);
      assert !(rows[next - 1].key.createTime < rows[n - 1].key.createTime);
      assert next < n ==> Less(SqlKey(rows[next - 1], false), SqlKey(rows[n - 1], false));
      RereadsLastSecond(rows, next);
    }
  }

  /** A second of more rows than a page: the page of its first rows comes again and again, the row behind it
      never. */
  lemma FullSecondStops(rows: seq<Row>)
    requires |rows| == READ_PAGE + 1
    requires forall i :: 0 <= i < |rows| ==> rows[i].key == Watermark(7, 0, i + 1)
    ensures
      var read := ReadNewNoSeq(rows, RecordedKey(rows[READ_PAGE - 1], false));
      && read == rows[..READ_PAGE]
      && ReadNewNoSeq(rows, RecordedKey(read[|read| - 1], false)) == read
  {
    SecondStartMeans(rows, 7);
    assert SecondStart(rows, 7) == 0 by {
      assert rows[0].key.createTime == 7;
    }
    RereadsLastSecond(rows, READ_PAGE);
    assert rows[0..READ_PAGE] == rows[..READ_PAGE];
  }
}
