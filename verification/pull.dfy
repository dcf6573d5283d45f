/** The ChatLab pull face (`src/server/handlers/chatlab_pull.rs`): one page of a conversation. */
module Pulls {
  import opened Wrappers
  import opened Decimals
  import opened Sorting

  const PAGE_MAX: nat := 5000

  datatype Msg = Msg(time: int, sortSeq: int, localId: int, text: string)

  datatype Page = Page(messages: seq<Msg>, hasMore: bool, nextSince: int, nextOffset: nat, watermark: int)

  // ---- the rows of a pull ------------------------------------------------------------------

  predicate KeyLe(a: Msg, b: Msg) {
    || a.time < b.time
    || (a.time == b.time && (a.sortSeq < b.sortSeq || (a.sortSeq == b.sortSeq && a.localId <= b.localId)))
  }

  predicate InWindow(m: Msg, since: Option<int>, end: Option<int>) {
    (since.Some? ==> m.time > since.value) && (end.Some? ==> m.time <= end.value)
  }

  /** The rows after `since` (exclusive) up to `end` (inclusive), in conversation order. */
  function Window(conv: seq<Msg>, since: Option<int>, end: Option<int>): seq<Msg> {
    if conv == [] then []
    else
      var rest, last := Window(conv[..|conv| - 1], since, end), conv[|conv| - 1];
      if InWindow(last, since, end) then rest + [last] else rest
  }

  /** The rows of a pull, sorted by (time, sequence, local id). */
  function OldestFirst(conv: seq<Msg>, since: Option<int>, end: Option<int>): seq<Msg> {
    StableSort(Window(conv, since, end), KeyLe)
  }

  predicate IsSorted(rows: seq<Msg>) {
    SortedBy(rows, KeyLe)
  }

  lemma KeyOrder()
    ensures TotalPreorder(KeyLe)
  {
  }

  lemma OldestFirstSorts(conv: seq<Msg>, since: Option<int>, end: Option<int>)
    ensures IsSorted(OldestFirst(conv, since, end))
    ensures multiset(OldestFirst(conv, since, end)) == multiset(Window(conv, since, end))
  {
    hide TotalPreorder, StableSort;
    KeyOrder();
    StableSortSorts(Window(conv, since, end), KeyLe);
  }

  /** By time, at the same time by sequence number, and within that by local id. */
  predicate Chronological(rows: seq<Msg>) {
    forall i, j :: 0 <= i < j < |rows| ==>
      && rows[i].time <= rows[j].time
      && (rows[i].time == rows[j].time ==> rows[i].sortSeq <= rows[j].sortSeq)
      && (rows[i].time == rows[j].time && rows[i].sortSeq == rows[j].sortSeq ==> rows[i].localId <= rows[j].localId)
  }

  /** The rows with this key, in order. */
  function OfKey(rows: seq<Msg>, key: Msg): seq<Msg> {
    if rows == [] then []
    else
      var rest, last := OfKey(rows[..|rows| - 1], key), rows[|rows| - 1];
      if last.time == key.time && last.sortSeq == key.sortSeq && last.localId == key.localId then rest + [last] else rest
  }

  lemma {:induction false} WindowCounts(conv: seq<Msg>, since: Option<int>, end: Option<int>, m: Msg)
    ensures multiset(Window(conv, since, end))[m]
         == if (since.None? || m.time > since.value) && (end.None? || m.time <= end.value) then multiset(conv)[m] else 0
  {
    if conv != [] {
      var init, last := conv[..|conv| - 1], conv[|conv| - 1];
      hide Window;
      WindowCounts(init, since, end, m);
      assert conv == init + [last];
      WindowMore(init, last, since, end);
    }
  }

  lemma {:induction false} OfKeyIsEquals(rows: seq<Msg>, key: Msg)
    ensures OfKey(rows, key) == Equals(rows, key, KeyLe)
  {
    if rows != [] {
      OfKeyIsEquals(rows[..|rows| - 1], key);
    }
  }

  /** The rows of a pull are those of the conversation after the lower bound and up to the upper one, each
      as often as it is there, in order of time, sequence number and local id, rows that share all three in
      the order they came. */
  lemma OldestFirstMeans(conv: seq<Msg>, since: Option<int>, end: Option<int>, m: Msg)
    ensures
      var rows := OldestFirst(conv, since, end);
      && Chronological(rows)
      && multiset(rows)[m] == (if (since.None? || m.time > since.value) && (end.None? || m.time <= end.value)
                               then multiset(conv)[m] else 0)
      && OfKey(rows, m) == OfKey(Window(conv, since, end), m)
  {
    var rows := OldestFirst(conv, since, end);
    OldestFirstSorts(conv, since, end);
    assert Chronological(rows) by {
      assert forall i, j :: 0 <= i < j < |rows| ==> KeyLe(rows[i], rows[j]);
    }
    hide TotalPreorder, StableSort, Equals, OfKey, Window, IsSorted, Chronological;
    KeyOrder();
    WindowCounts(conv, since, end, m);
    StableSortIsStable(Window(conv, since, end), m, KeyLe);
    OfKeyIsEquals(rows, m);
    OfKeyIsEquals(Window(conv, since, end), m);
  }

  // ---- one page ----------------------------------------------------------------------------------

  /** Where a page from `start` ends, scanning from `e`: at the end of the list, or at the first change
      of second once `limit` rows are in. */
  function PageEnd(rows: seq<Msg>, start: nat, e: nat, limit: nat): (end: nat)
    requires start <= e <= |rows|
    ensures e <= end <= |rows| && (end == start ==> start == |rows|)
    decreases |rows| - e
  {
    if e == |rows| || (e > start && rows[e].time != rows[e - 1].time && e - start >= limit) then e
    else PageEnd(rows, start, e + 1, limit)
  }

  method CutPage(rows: seq<Msg>, start: nat, limit: nat) returns (pageEnd: nat)
    requires start <= |rows|
    ensures pageEnd == PageEnd(rows, start, start, limit)
  {
    pageEnd := start;
    var prev: Option<int> := None;
    while pageEnd < |rows|
      invariant start <= pageEnd <= |rows|
      invariant prev == if pageEnd > start then Some(rows[pageEnd - 1].time) else None
      invariant PageEnd(rows, start, start, limit) == PageEnd(rows, start, pageEnd, limit)
    {
      var ts := rows[pageEnd].time;
      if prev.Some? && prev.value != ts && pageEnd - start >= limit {
        break;
      }
      prev := Some(ts);
      pageEnd := pageEnd + 1;
    }
  }

  /** The handler. A request's `limit` is clamped to 1 to 5000 before it gets here. */
  function Serve(conv: seq<Msg>, since: Option<int>, end: Option<int>, now: int, limit: nat, offset: nat): Page {
    var rows := OldestFirst(conv, since, end);
    var start := Min(offset, |rows|);
    var pageEnd := PageEnd(rows, start, start, limit);
    var page := rows[start..pageEnd];
    var hasMore := pageEnd < |rows|;
    var watermark := if end.Some? then end.value else now;
    var nextSince := if page != [] then page[|page| - 1].time else if since.Some? then since.value else 0;
    Page(page, hasMore, if hasMore then nextSince else watermark,
         if hasMore && nextSince <= (if since.Some? then since.value else I64_MIN) then start + |page| else 0,
         watermark)
  }

  // ---- what a page is ---------------------------------------------------------------------------

  /** No page ends inside a second, each but the last holds at least `limit` rows, and what is over the
      limit is the rest of the last second. */
  lemma {:induction false} PageEndMeans(rows: seq<Msg>, start: nat, e: nat, limit: nat)
    requires start <= e <= |rows| && limit > 0
    requires e - start > limit ==> forall i :: start + limit - 1 <= i < e ==> rows[i].time == rows[e - 1].time
    ensures
      var end := PageEnd(rows, start, e, limit);
      && (end < |rows| ==> start < end && rows[end].time != rows[end - 1].time)
      && end - start >= Min(limit, |rows| - start)
      && (end - start > limit ==> forall i :: start + limit - 1 <= i < end ==> rows[i].time == rows[end - 1].time)
    decreases |rows| - e
  {
    if !(e == |rows| || (e > start && rows[e].time != rows[e - 1].time && e - start >= limit)) {
      if e + 1 - start > limit {
        assert rows[e].time == rows[e - 1].time;
      }
      PageEndMeans(rows, start, e + 1, limit);
    }
  }

  /** Every page, at any offset: a stretch of the sorted rows that begins at the offset, makes progress
      while rows remain, never ends inside a second, and says whether anything is left. The next lower bound
      is the time of its last row while rows are left, else the upper bound or, without one, the present. */
  lemma PageIsWholeSeconds(conv: seq<Msg>, since: Option<int>, end: Option<int>, now: int, limit: nat, offset: nat)
    requires limit > 0
    ensures
      var rows, page := OldestFirst(conv, since, end), Serve(conv, since, end, now, limit, offset);
      var start := Min(offset, |rows|);
      var e := start + |page.messages|;
      && e <= |rows| && page.messages == rows[start..e]
      && (page.hasMore <==> e < |rows|)
      && |page.messages| >= Min(limit, |rows| - start)
      && (e < |rows| ==> rows[e].time != rows[e - 1].time)
      && (|page.messages| > limit ==>
            forall i :: limit - 1 <= i < |page.messages| ==> page.messages[i].time == page.messages[|page.messages| - 1].time)
      && (page.hasMore ==> page.messages != [] && page.nextSince == page.messages[|page.messages| - 1].time)
      && (!page.hasMore ==> page.nextSince == page.watermark && page.nextOffset == 0)
      && page.watermark == (if end.Some? then end.value else now)
  {
    var rows := OldestFirst(conv, since, end);
    var start := Min(offset, |rows|);
    PageEndMeans(rows, start, start, limit);
  }

  // ---- cursors ------------------------------------------------------------------------------------

  lemma {:induction false} WindowTimes(conv: seq<Msg>, since: Option<int>, end: Option<int>)
    ensures forall m :: m in Window(conv, since, end) <==> m in conv && InWindow(m, since, end)
  {
    if conv != [] {
      var init := conv[..|conv| - 1];
      WindowTimes(init, since, end);
      assert conv == init + [conv[|conv| - 1]];
    }
  }

  lemma OldestFirstTimes(conv: seq<Msg>, since: Option<int>, end: Option<int>)
    ensures forall m :: m in OldestFirst(conv, since, end) <==> m in conv && InWindow(m, since, end)
    ensures IsSorted(OldestFirst(conv, since, end))
  {
    var rows, window := OldestFirst(conv, since, end), Window(conv, since, end);
    OldestFirstSorts(conv, since, end);
    WindowTimes(conv, since, end);
    forall m ensures m in rows <==> m in window {
      assert m in rows <==> m in multiset(rows);
      assert m in window <==> m in multiset(window);
    }
  }

  /** A page says "resume at an offset" only when time could not advance at all: nothing bounded the
      pull from below, and the page ends at the very first representable second. */
  lemma OffsetCursorIff(conv: seq<Msg>, since: Option<int>, end: Option<int>, now: int, limit: nat, offset: nat)
    requires limit > 0 && forall m :: m in conv ==> IsI64(m.time)
    ensures
      var page := Serve(conv, since, end, now, limit, offset);
      && (page.hasMore ==> page.messages != [])
      && (page.nextOffset != 0 <==>
            page.hasMore && since.None? && page.messages[|page.messages| - 1].time == I64_MIN)
  {
    var rows := OldestFirst(conv, since, end);
    PageIsWholeSeconds(conv, since, end, now, limit, offset);
    OldestFirstTimes(conv, since, end);
    var page := Serve(conv, since, end, now, limit, offset);
    if page.messages != [] {
      assert page.messages[|page.messages| - 1] in rows;
    }
  }

  lemma WindowMore(rows: seq<Msg>, m: Msg, since: Option<int>, end: Option<int>)
    ensures Window(rows + [m], since, end)
         == if InWindow(m, since, end) then Window(rows, since, end) + [m] else Window(rows, since, end)
  {
    assert (rows + [m])[..|rows|] == rows;
  }

  lemma InsertLast(rows: seq<Msg>, m: Msg)
    requires forall x :: x in rows ==> KeyLe(x, m)
    ensures Insert(rows, m, KeyLe) == rows + [m]
  {
  }

  lemma InsertBefore(rows: seq<Msg>, last: Msg, m: Msg)
    requires !KeyLe(last, m)
    ensures Insert(rows + [last], m, KeyLe) == Insert(rows, m, KeyLe) + [last]
  {
    assert (rows + [last])[..|rows|] == rows;
  }

  lemma {:induction false} InsertKeepsAbove(rows: seq<Msg>, m: Msg, t: int)
    requires IsSorted(rows)
    ensures Window(Insert(rows, m, KeyLe), Some(t), None)
         == if m.time > t then Insert(Window(rows, Some(t), None), m, KeyLe) else Window(rows, Some(t), None)
    decreases |rows|
  {
    var above := Window(rows, Some(t), None);
    WindowTimes(rows, Some(t), None);
    if rows == [] || KeyLe(rows[|rows| - 1], m) {
      WindowMore(rows, m, Some(t), None);
      InsertLast(rows, m);
      InsertLast(above, m);
    } else {
      var init, last := rows[..|rows| - 1], rows[|rows| - 1];
      assert rows == init + [last];
      InsertKeepsAbove(init, m, t);
      hide Insert, Window, IsSorted;
      InsertBefore(init, last, m);
      WindowMore(init, last, Some(t), None);
      WindowMore(Insert(init, m, KeyLe), last, Some(t), None);
      InsertBefore(Window(init, Some(t), None), last, m);
    }
  }

  lemma SortMore(rows: seq<Msg>, m: Msg)
    ensures StableSort(rows + [m], KeyLe) == Insert(StableSort(rows, KeyLe), m, KeyLe)
  {
    assert (rows + [m])[..|rows|] == rows;
  }

  /** Sorting and then keeping the rows above a time is keeping them and then sorting. */
  lemma {:induction false} SortKeepsAbove(rows: seq<Msg>, t: int)
    ensures StableSort(Window(rows, Some(t), None), KeyLe) == Window(StableSort(rows, KeyLe), Some(t), None)
  {
    if rows != [] {
      hide Insert, StableSort, Window, TotalPreorder, IsSorted;
      var init, last := rows[..|rows| - 1], rows[|rows| - 1];
      SortKeepsAbove(init, t);
      assert rows == init + [last];
      SortMore(init, last);
      SortedOfSort(init);
      InsertKeepsAbove(StableSort(init, KeyLe), last, t);
      WindowMore(init, last, Some(t), None);
      SortMore(Window(init, Some(t), None), last);
    }
  }

  lemma SortedOfSort(rows: seq<Msg>)
    ensures IsSorted(StableSort(rows, KeyLe))
  {
    KeyOrder();
    StableSortSorts(rows, KeyLe);
    hide StableSort, TotalPreorder;
  }

  lemma {:induction false} WindowOfWindow(conv: seq<Msg>, since: Option<int>, end: Option<int>, t: int)
    requires since.Some? ==> since.value <= t
    ensures Window(Window(conv, since, end), Some(t), None) == Window(conv, Some(t), end)
  {
    if conv != [] {
      var init, last := conv[..|conv| - 1], conv[|conv| - 1];
      WindowOfWindow(init, since, end, t);
      var rest := Window(init, since, end);
      if InWindow(last, since, end) {
        assert (rest + [last])[..|rest|] == rest;
      }
    }
  }

  lemma {:induction false} AboveIsSuffix(rows: seq<Msg>, e: nat, t: int)
    requires e <= |rows|
    requires (forall i :: 0 <= i < e ==> rows[i].time <= t) && (forall i :: e <= i < |rows| ==> rows[i].time > t)
    ensures Window(rows, Some(t), None) == rows[e..]
    decreases |rows|
  {
    if rows != [] {
      var init, last := rows[..|rows| - 1], rows[|rows| - 1];
      if e == |rows| {
        AboveIsSuffix(init, |init|, t);
      } else {
        AboveIsSuffix(init, e, t);
        assert rows[e..] == init[e..] + [last];
      }
    }
  }

  lemma TimesCross(rows: seq<Msg>, e: nat, t: int)
    requires IsSorted(rows) && e <= |rows| && (e > 0 ==> rows[e - 1].time <= t) && (e < |rows| ==> t < rows[e].time)
    ensures (forall i :: 0 <= i < e ==> rows[i].time <= t) && (forall i :: e <= i < |rows| ==> rows[i].time > t)
  {
  }

  /** Where the rows of a pull cross a time, the pull after that time is the rest of them. */
  lemma PullAfter(conv: seq<Msg>, since: Option<int>, end: Option<int>, e: nat, t: int)
    requires since.Some? ==> since.value <= t
    requires
      var rows := OldestFirst(conv, since, end);
      e <= |rows| && (e > 0 ==> rows[e - 1].time <= t) && (e < |rows| ==> t < rows[e].time)
    ensures OldestFirst(conv, Some(t), end) == OldestFirst(conv, since, end)[e..]
  {
    var rows := OldestFirst(conv, since, end);
    OldestFirstSorts(conv, since, end);
    TimesCross(rows, e, t);
    hide StableSort, Window, IsSorted;
    WindowOfWindow(conv, since, end, t);
    SortKeepsAbove(Window(conv, since, end), t);
    AboveIsSuffix(rows, e, t);
  }
}
