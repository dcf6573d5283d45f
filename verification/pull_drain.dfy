/** Draining a conversation through the pull cursors (`drain_session` in `clients/rust/src/client.rs`),
    page after page, against a conversation that may grow in between. */
module PullDrains {
  import opened Wrappers
  import opened Decimals
  import opened TimeBounds
  import opened Sorting
  import opened Pulls

  /** A cursor as the server reads it: printed by the client, parsed as a time bound. */
  function Echo(since: Option<int>): Option<int> {
    if since.None? then None else ParseTimeBound(PrintInt(since.value), false)
  }

  /** Times are 64-bit integers. */
  predicate TimesFit(conv: seq<Msg>) {
    forall m :: m in conv ==> IsI64(m.time)
  }

  // ---- one cursor ---------------------------------------------------------------------------------

  /** The rows a request selects, before paging. */
  function Selected(conv: seq<Msg>, since: Option<int>, offset: nat): seq<Msg> {
    var rows := OldestFirst(conv, since, None);
    rows[Min(offset, |rows|)..]
  }

  /** An echoed cursor separates the rows up to `last` from all later ones. */
  predicate Bridges(conv: seq<Msg>, last: int, echoed: Option<int>) {
    echoed.Some? && last <= echoed.value && forall m :: m in conv ==> !(last < m.time <= echoed.value)
  }

  lemma PageFacts(conv: seq<Msg>, since: Option<int>, now: int, limit: nat, offset: nat)
    requires limit > 0 && TimesFit(conv)
    ensures
      var rows, page := OldestFirst(conv, since, None), Serve(conv, since, None, now, limit, offset);
      var start := Min(offset, |rows|);
      var e := start + |page.messages|;
      && e <= |rows| && page.messages == rows[start..e] && (page.hasMore <==> e < |rows|)
      && (start < |rows| ==> start < e)
      && (page.hasMore ==>
            && start == offset && start < e && rows[e - 1] in conv && (since.Some? ==> since.value < rows[e - 1].time)
            && page.nextSince == rows[e - 1].time < rows[e].time
            && page.nextOffset == if since.None? && rows[e - 1].time == I64_MIN then e else 0)
  {
    var rows, page := OldestFirst(conv, since, None), Serve(conv, since, None, now, limit, offset);
    PageIsWholeSeconds(conv, since, None, now, limit, offset);
    OldestFirstTimes(conv, since, None);
    hide OldestFirst, PageEnd;
    var e := Min(offset, |rows|) + |page.messages|;
    if e < |rows| {
      assert rows[e - 1] in rows && KeyLe(rows[e - 1], rows[e]);
      assert page.messages[|page.messages| - 1] == rows[e - 1];
    }
  }

  /** Whatever bound follows a page, it leads on to exactly the rows after the page if and only if it
      separates them from the page, and the page does not end at the first second there is. */
  lemma NextContinuesIff(conv: seq<Msg>, since: Option<int>, now: int, limit: nat, offset: nat, next: Option<int>)
    requires limit > 0 && TimesFit(conv) && Serve(conv, since, None, now, limit, offset).hasMore
    requires Serve(conv, since, None, now, limit, offset).nextSince == I64_MIN ==> next == Some(I64_MIN)
    ensures
      var page := Serve(conv, since, None, now, limit, offset);
      Selected(conv, next, page.nextOffset) == Selected(conv, since, offset)[|page.messages|..]
      <==> Bridges(conv, page.nextSince, next) && (since.None? ==> page.nextSince != I64_MIN)
  {
    PageFacts(conv, since, now, limit, offset);
    var rows, page := OldestFirst(conv, since, None), Serve(conv, since, None, now, limit, offset);
    var e := offset + |page.messages|;
    hide Serve, OldestFirst;
    assert rows[offset..][|page.messages|..] == rows[e..];
    BridgesBefore(conv, since, e, next);
    if page.nextOffset != 0 {
      PullAfter(conv, since, None, e, I64_MIN);
      assert |Selected(conv, next, page.nextOffset)| < |rows[e..]|;
    } else if Bridges(conv, page.nextSince, next) {
      PullAfter(conv, since, None, e, next.value);
    } else {
      ElsewhereDiffers(conv, since, e, next);
      assert Selected(conv, next, 0) == OldestFirst(conv, next, None);
    }
  }

  lemma BridgesBefore(conv: seq<Msg>, since: Option<int>, e: nat, next: Option<int>)
    requires
      var rows := OldestFirst(conv, since, None);
      0 < e < |rows| && rows[e - 1].time < rows[e].time && (since.Some? ==> since.value < rows[e - 1].time)
    ensures
      var rows := OldestFirst(conv, since, None);
      Bridges(conv, rows[e - 1].time, next) <==> next.Some? && rows[e - 1].time <= next.value < rows[e].time
  {
    var rows := OldestFirst(conv, since, None);
    OldestFirstTimes(conv, since, None);
    hide OldestFirst;
    assert rows[e] in rows;
    if next.Some? && rows[e - 1].time <= next.value < rows[e].time {
      forall m | m in conv ensures !(rows[e - 1].time < m.time <= next.value) {
        if rows[e - 1].time < m.time {
          assert m in rows;
          var k :| 0 <= k < |rows| && rows[k] == m;
          assert k < e - 1 ==> KeyLe(rows[k], rows[e - 1]);
          assert k > e ==> KeyLe(rows[e], rows[k]);
        }
      }
    }
  }

  lemma ElsewhereDiffers(conv: seq<Msg>, since: Option<int>, e: nat, next: Option<int>)
    requires
      var rows := OldestFirst(conv, since, None);
      && 0 < e < |rows| && rows[e - 1].time < rows[e].time && rows[e - 1] in conv
      && !(next.Some? && rows[e - 1].time <= next.value < rows[e].time)
    ensures OldestFirst(conv, next, None) != OldestFirst(conv, since, None)[e..]
  {
    var rows := OldestFirst(conv, since, None);
    OldestFirstTimes(conv, since, None);
    OldestFirstTimes(conv, next, None);
    hide OldestFirst;
    assert rows[e] in rows[e..];
    forall k | e <= k < |rows| ensures rows[k] != rows[e - 1] {
      assert k == e || KeyLe(rows[e], rows[k]);
    }
    assert rows[e - 1] !in rows[e..];
  }

  lemma FirstSecondEchoes()
    ensures Echo(Some(I64_MIN)) == Some(I64_MIN)
  {
    EchoIff(I64_MIN);
  }

  /** Echoing a page's cursors selects exactly the rows after the page if and only if the echoed time
      still separates the page from them, and the pull was not stuck at the first second there is. */
  lemma CursorContinuesIff(conv: seq<Msg>, since: Option<int>, now: int, limit: nat, offset: nat)
    requires limit > 0 && TimesFit(conv) && Serve(conv, since, None, now, limit, offset).hasMore
    ensures
      var page := Serve(conv, since, None, now, limit, offset);
      Selected(conv, Echo(Some(page.nextSince)), page.nextOffset) == Selected(conv, since, offset)[|page.messages|..]
      <==> CarriesOn(conv, since, page)
  {
    hide Serve, Selected, Echo;
    PageFacts(conv, since, now, limit, offset);
    FirstSecondEchoes();
    NextContinuesIff(conv, since, now, limit, offset, Echo(Some(Serve(conv, since, None, now, limit, offset).nextSince)));
  }

  /** What has to hold where a page ends: it can be read off the page's last time and the rows after it. */
  predicate CarriesOn(conv: seq<Msg>, since: Option<int>, page: Page) {
    Bridges(conv, page.nextSince, Echo(Some(page.nextSince))) && (since.None? ==> page.nextSince != I64_MIN)
  }

  /** The other side of it: a page that ends at such a second as 20 000 000 sends its reader back to the
      very same page, for ever. */
  lemma DateCursorRestarts(conv: seq<Msg>, now: int, limit: nat)
    requires limit > 0 && TimesFit(conv)
    requires
      var page := Serve(conv, None, None, now, limit, 0);
      page.hasMore && LooksLikeDate(page.nextSince) && page.nextSince % 10_000 < 100
    ensures
      var page := Serve(conv, None, None, now, limit, 0);
      Serve(conv, Echo(Some(page.nextSince)), None, now, limit, page.nextOffset) == page
  {
    PageFacts(conv, None, now, limit, 0);
    hide Serve;
    NoMonthZero(Serve(conv, None, None, now, limit, 0).nextSince);
  }

  /** Two rows, pages of one: the second row is never reached. */
  lemma TwoRowsNeverDrained(first: Msg, second: Msg, now: int)
    requires first.time == 20_000_000 && second.time == 20_000_001
    ensures
      var page := Serve([first, second], None, None, now, 1, 0);
      && page.messages == [first] && page.hasMore
      && Serve([first, second], Echo(Some(page.nextSince)), None, now, 1, page.nextOffset) == page
  {
    var conv := [first, second];
    TwoInOrder(first, second);
    assert PageEnd(conv, 0, 0, 1) == PageEnd(conv, 0, 1, 1) == 1;
    DateCursorRestarts(conv, now, 1);
  }

  /** A row at the first second there is and one after it, pages of one: the echoed offset skips the row
      that the echoed time has already brought to the front, and the drain ends without it. */
  lemma FirstSecondLosesARow(first: Msg, second: Msg, now: int)
    requires first.time == I64_MIN && second.time == 0
    ensures
      var page := Serve([first, second], None, None, now, 1, 0);
      var next := Serve([first, second], Echo(Some(page.nextSince)), None, now, 1, page.nextOffset);
      && page.messages == [first] && page.hasMore && page.nextOffset == 1
      && next.messages == [] && !next.hasMore
  {
    var conv := [first, second];
    TwoInOrder(first, second);
    assert PageEnd(conv, 0, 0, 1) == PageEnd(conv, 0, 1, 1) == 1;
    FirstSecondEchoes();
    PullAfter(conv, None, None, 1, I64_MIN);
    hide OldestFirst, Echo;
    assert conv[1..] == [second];
  }

  lemma TwoInOrder(first: Msg, second: Msg)
    requires first.time < second.time
    ensures OldestFirst([first, second], None, None) == [first, second]
  {
    assert [first, second] == [first] + [second] && [first] == [] + [first];
    WindowMore([], first, None, None);
    WindowMore([first], second, None, None);
    assert StableSort([first], KeyLe) == Insert(StableSort([], KeyLe), first, KeyLe) == [first];
    InsertLast([first], second);
    assert StableSort([first] + [second], KeyLe) == Insert([first], second, KeyLe) by {
      assert ([first] + [second])[..1] == [first];
    }
  }

  // ---- a conversation that stays as it is ----------------------------------------------------------

  /** Every page but the last, cut from `rows`, ends where its cursor carries on; `first` says that
      nothing bounds the first page from below. */
  predicate PageEndsOk(conv: seq<Msg>, rows: seq<Msg>, limit: nat, first: bool)
    decreases |rows|
  {
    var n := PageEnd(rows, 0, 0, limit);
    n == |rows| ||
    (var last := rows[n - 1].time;
     Bridges(conv, last, Echo(Some(last))) && (first ==> last != I64_MIN) && PageEndsOk(conv, rows[n..], limit, false))
  }

  lemma PageEndsOnce(conv: seq<Msg>, rows: seq<Msg>, limit: nat, first: bool)
    ensures
      var n := PageEnd(rows, 0, 0, limit);
      PageEndsOk(conv, rows, limit, first)
      <==> n < |rows| ==>
             && Bridges(conv, rows[n - 1].time, Echo(Some(rows[n - 1].time)))
             && (first ==> rows[n - 1].time != I64_MIN) && PageEndsOk(conv, rows[n..], limit, false)
  {
    hide Bridges, Echo;
  }

  /** What one page does to the condition on those that follow. */
  lemma PageEndsAfter(conv: seq<Msg>, since: Option<int>, now: int, limit: nat)
    requires limit > 0 && TimesFit(conv)
    ensures
      var rows, page := OldestFirst(conv, since, None), Serve(conv, since, None, now, limit, 0);
      && page.messages <= rows && (page.hasMore ==> page.messages != []) && (!page.hasMore ==> page.messages == rows)
      && (PageEndsOk(conv, rows, limit, since.None?)
          <==> page.hasMore ==>
                 CarriesOn(conv, since, page) && PageEndsOk(conv, rows[|page.messages|..], limit, false))
  {
    hide Serve, OldestFirst, Bridges, Echo, TimesFit, PageEnd, PageEndsOk;
    var rows := OldestFirst(conv, since, None);
    FirstPageEnds(conv, since, now, limit);
    PageEndsOnce(conv, rows, limit, since.None?);
  }

  /** The page at offset zero: where it ends, and what its cursor is. */
  lemma FirstPageEnds(conv: seq<Msg>, since: Option<int>, now: int, limit: nat)
    requires limit > 0 && TimesFit(conv)
    ensures
      var rows, page := OldestFirst(conv, since, None), Serve(conv, since, None, now, limit, 0);
      var n := PageEnd(rows, 0, 0, limit);
      && |page.messages| == n && page.messages == rows[..n] && (page.hasMore <==> n < |rows|)
      && (page.hasMore ==> n > 0 && page.nextSince == rows[n - 1].time)
      && (!page.hasMore ==> page.messages == rows)
  {
    PageFacts(conv, since, now, limit, 0);
    hide OldestFirst, TimesFit;
    var rows, n := OldestFirst(conv, since, None), |Serve(conv, since, None, now, limit, 0).messages|;
    assert rows[0..n] == rows[..n] && rows[..|rows|] == rows;
  }

  /** The client's drain over one conversation: it ends, and what it hands over page by page is the
      sorted list of every row after `since`. */
  method DrainSession(conv: seq<Msg>, since: Option<int>, now: int) returns (items: seq<Msg>, total: nat)
    requires TimesFit(conv)
    requires PageEndsOk(conv, OldestFirst(conv, Echo(since), None), PAGE_MAX, Echo(since).None?)
    ensures items == OldestFirst(conv, Echo(since), None) && total == |items|
  {
    hide Serve, OldestFirst, Echo, TimesFit, PageEndsOk, CarriesOn;
    var nextSince, nextOffset := since, 0;
    items, total := [], 0;
    var more := true;
    while more
      invariant total == |items|
      invariant
        if more then
          && nextOffset == 0
          && items + OldestFirst(conv, Echo(nextSince), None) == OldestFirst(conv, Echo(since), None)
          && PageEndsOk(conv, OldestFirst(conv, Echo(nextSince), None), PAGE_MAX, Echo(nextSince).None?)
        else items == OldestFirst(conv, Echo(since), None)
      decreases more, |OldestFirst(conv, Echo(nextSince), None)|
    {
      ghost var rest := OldestFirst(conv, Echo(nextSince), None);
      PageEndsAfter(conv, Echo(nextSince), now, PAGE_MAX);
      var page := Serve(conv, Echo(nextSince), None, now, PAGE_MAX, nextOffset);
      if page.hasMore {
        NextPage(conv, Echo(nextSince), now, PAGE_MAX);
      }
      assert rest == page.messages + rest[|page.messages|..];
      assert items + rest == items + page.messages + rest[|page.messages|..];
      items := items + page.messages;
      total := total + |page.messages|;
      if !page.hasMore {
        more := false;
      } else {
        nextSince := Some(page.nextSince);
        nextOffset := page.nextOffset;
      }
    }
  }

  lemma NextPage(conv: seq<Msg>, since: Option<int>, now: int, limit: nat)
    requires limit > 0 && TimesFit(conv) && Serve(conv, since, None, now, limit, 0).hasMore
    requires CarriesOn(conv, since, Serve(conv, since, None, now, limit, 0))
    ensures
      var page := Serve(conv, since, None, now, limit, 0);
      && page.nextOffset == 0 && Echo(Some(page.nextSince)).Some?
      && OldestFirst(conv, Echo(Some(page.nextSince)), None) == OldestFirst(conv, since, None)[|page.messages|..]
  {
    PageFacts(conv, since, now, limit, 0);
    hide Serve, OldestFirst, Echo;
    var page := Serve(conv, since, None, now, limit, 0);
    CursorContinuesIff(conv, since, now, limit, 0);
    assert OldestFirst(conv, since, None)[0..] == OldestFirst(conv, since, None);
  }

  /** Each of the first `k` requests, and the one after them, selects exactly the rows not handed over
      yet; the client stops where a page says so. */
  predicate KeepsPlace(conv: seq<Msg>, since: Option<int>, offset: nat, rest: seq<Msg>, now: int, limit: nat, k: nat)
    decreases k
  {
    && Selected(conv, since, offset) == rest
    && (var page := Serve(conv, since, None, now, limit, offset);
        k > 0 && page.hasMore && |page.messages| <= |rest| ==>
          KeepsPlace(conv, Echo(Some(page.nextSince)), page.nextOffset, rest[|page.messages|..], now, limit, k - 1))
  }

  lemma KeepsPlaceOneMore(conv: seq<Msg>, since: Option<int>, now: int, limit: nat, k: nat)
    requires limit > 0 && TimesFit(conv) && |OldestFirst(conv, since, None)| <= k
    ensures
      var rows, page := OldestFirst(conv, since, None), Serve(conv, since, None, now, limit, 0);
      && |page.messages| <= |rows| && (page.hasMore ==> k > 0 && page.messages != [])
      && (KeepsPlace(conv, since, 0, rows, now, limit, k) <==> page.hasMore ==>
            KeepsPlace(conv, Echo(Some(page.nextSince)), page.nextOffset, rows[|page.messages|..], now, limit, k - 1))
  {
    var rows := OldestFirst(conv, since, None);
    PageFacts(conv, since, now, limit, 0);
    hide Serve, OldestFirst, Echo;
    assert rows[0..] == rows;
  }

  /** The condition on page ends is exact: the drain never repeats or skips a row if and only if it holds. */
  lemma {:induction false} DrainExactIff(conv: seq<Msg>, since: Option<int>, now: int, limit: nat, k: nat)
    requires limit > 0 && TimesFit(conv) && |OldestFirst(conv, since, None)| <= k
    ensures
      var rows := OldestFirst(conv, since, None);
      KeepsPlace(conv, since, 0, rows, now, limit, k) <==> PageEndsOk(conv, rows, limit, since.None?)
    decreases k
  {
    hide Serve, OldestFirst, PageEndsOk, Echo, KeepsPlace, TimesFit, CarriesOn;
    var rows, page := OldestFirst(conv, since, None), Serve(conv, since, None, now, limit, 0);
    PageEndsAfter(conv, since, now, limit);
    KeepsPlaceOneMore(conv, since, now, limit, k);
    if page.hasMore {
      if CarriesOn(conv, since, page) {
        NextPage(conv, since, now, limit);
        DrainExactIff(conv, Echo(Some(page.nextSince)), now, limit, k - 1);
      } else {
        LosesPlace(conv, since, now, limit, k - 1);
      }
    }
  }

  lemma LosesPlace(conv: seq<Msg>, since: Option<int>, now: int, limit: nat, k: nat)
    requires limit > 0 && TimesFit(conv) && Serve(conv, since, None, now, limit, 0).hasMore
    requires !CarriesOn(conv, since, Serve(conv, since, None, now, limit, 0))
    requires |Serve(conv, since, None, now, limit, 0).messages| <= |OldestFirst(conv, since, None)|
    ensures
      var rows, page := OldestFirst(conv, since, None), Serve(conv, since, None, now, limit, 0);
      !KeepsPlace(conv, Echo(Some(page.nextSince)), page.nextOffset, rows[|page.messages|..], now, limit, k)
  {
    hide Serve, OldestFirst, Echo, CarriesOn;
    CursorContinuesIff(conv, since, now, limit, 0);
    assert OldestFirst(conv, since, None)[0..] == OldestFirst(conv, since, None);
  }

  /** A row whose time survives the trip through a cursor. */
  predicate RowOk(m: Msg) {
    I64_MIN < m.time <= I64_MAX && !LooksLikeDate(m.time)
  }

  /** Conversations without eight-digit times, as all real ones are, meet the condition. */
  lemma {:induction false} OrdinaryTimesAreOk(conv: seq<Msg>, rows: seq<Msg>, limit: nat, first: bool)
    requires forall m :: m in rows ==> RowOk(m)
    ensures PageEndsOk(conv, rows, limit, first)
    decreases |rows|
  {
    var n := PageEnd(rows, 0, 0, limit);
    if n < |rows| {
      assert rows[n - 1] in rows;
      EchoIff(rows[n - 1].time);
      OrdinaryTimesAreOk(conv, rows[n..], limit, false);
    }
  }

  // ---- a conversation that grows -----------------------------------------------------------------

  /** The drain as a history: page `i` was served from `convs[i]`, which only ever gains rows, and every
      page but the last ended where its cursor carries on. */
  predicate IsDrain(convs: seq<seq<Msg>>, nows: seq<int>, since: Option<int>, limit: nat) {
    && limit > 0 && |convs| == |nows| > 0
    && (forall i :: 0 <= i < |convs| ==> TimesFit(convs[i]))
    && (forall i :: 0 < i < |convs| ==> multiset(convs[i - 1]) <= multiset(convs[i]))
    && (forall i :: 0 <= i < |convs| - 1 ==> Followed(convs, nows, since, limit, i))
  }

  predicate Followed(convs: seq<seq<Msg>>, nows: seq<int>, since: Option<int>, limit: nat, i: nat)
    requires |convs| == |nows| && i < |convs|
  {
    var page := PageOf(convs, nows, since, limit, i);
    page.hasMore && CarriesOn(convs[i], Echo(CursorsOf(convs, nows, since, limit, i).0), page)
  }

  /** Where times do not have eight digits, any drain that goes on while there is more is such a history. */
  lemma OrdinaryDrainsCarryOn(convs: seq<seq<Msg>>, nows: seq<int>, since: Option<int>, limit: nat)
    requires limit > 0 && |convs| == |nows| > 0
    requires forall i, m :: 0 <= i < |convs| && m in convs[i] ==> RowOk(m)
    requires forall i :: 0 < i < |convs| ==> multiset(convs[i - 1]) <= multiset(convs[i])
    requires forall i :: 0 <= i < |convs| - 1 ==> PageOf(convs, nows, since, limit, i).hasMore
    ensures IsDrain(convs, nows, since, limit)
  {
    forall i | 0 <= i < |convs| ensures TimesFit(convs[i]) {
      assert forall m :: m in convs[i] ==> RowOk(m);
    }
    hide PageOf, CursorsOf, TimesFit;
    forall i | 0 <= i < |convs| - 1 ensures Followed(convs, nows, since, limit, i) {
      var (cursor, offset) := CursorsOf(convs, nows, since, limit, i);
      OneRequest(convs, nows, since, limit, i);
      assert forall m :: m in convs[i] ==> RowOk(m);
      OrdinaryPageCarriesOn(convs[i], Echo(cursor), nows[i], limit, offset);
    }
  }

  lemma OrdinaryPageCarriesOn(conv: seq<Msg>, since: Option<int>, now: int, limit: nat, offset: nat)
    requires limit > 0 && TimesFit(conv) && (forall m :: m in conv ==> RowOk(m))
    requires Serve(conv, since, None, now, limit, offset).hasMore
    ensures CarriesOn(conv, since, Serve(conv, since, None, now, limit, offset))
  {
    PageFacts(conv, since, now, limit, offset);
    hide Serve, OldestFirst;
    EchoIff(Serve(conv, since, None, now, limit, offset).nextSince);
  }

  /** The cursors the client sends with request `i`. */
  function CursorsOf(convs: seq<seq<Msg>>, nows: seq<int>, since: Option<int>, limit: nat, i: nat): (Option<int>, nat)
    requires |convs| == |nows| && i < |convs|
    decreases i, 0
  {
    if i == 0 then (since, 0)
    else
      var page := PageOf(convs, nows, since, limit, i - 1);
      (Some(page.nextSince), page.nextOffset)
  }

  function PageOf(convs: seq<seq<Msg>>, nows: seq<int>, since: Option<int>, limit: nat, i: nat): Page
    requires |convs| == |nows| && i < |convs|
    decreases i, 1
  {
    var (cursor, offset) := CursorsOf(convs, nows, since, limit, i);
    Serve(convs[i], Echo(cursor), None, nows[i], limit, offset)
  }

  /** Everything handed over by the first `n` pages. */
  function Drained(convs: seq<seq<Msg>>, nows: seq<int>, since: Option<int>, limit: nat, n: nat): seq<Msg>
    requires |convs| == |nows| && n <= |convs|
  {
    if n == 0 then []
    else Drained(convs, nows, since, limit, n - 1) + PageOf(convs, nows, since, limit, n - 1).messages
  }

  /** How far a page reaches: to its last row, or without bound when it says there is no more. */
  function Reach(page: Page): Option<int> {
    if page.hasMore && page.messages != [] then Some(page.messages[|page.messages| - 1].time) else None
  }

  predicate TimesRise(items: seq<Msg>) {
    forall i, j :: 0 <= i <= j < |items| ==> items[i].time <= items[j].time
  }

  lemma {:induction false} WindowCount(conv: seq<Msg>, since: Option<int>, end: Option<int>, m: Msg)
    ensures multiset(Window(conv, since, end))[m] == if InWindow(m, since, end) then multiset(conv)[m] else 0
  {
    if conv != [] {
      var init, last := conv[..|conv| - 1], conv[|conv| - 1];
      WindowCount(init, since, end, m);
      assert conv == init + [last];
    }
  }

  lemma WindowGrows(conv: seq<Msg>, more: seq<Msg>, since: Option<int>, end: Option<int>)
    requires multiset(conv) <= multiset(more)
    ensures multiset(Window(conv, since, end)) <= multiset(Window(more, since, end))
  {
    forall m ensures multiset(Window(conv, since, end))[m] <= multiset(Window(more, since, end))[m] {
      WindowCount(conv, since, end, m);
      WindowCount(more, since, end, m);
    }
  }

  lemma WindowJoins(conv: seq<Msg>, since: Option<int>, t: int, end: Option<int>)
    requires (since.Some? ==> since.value <= t) && (end.Some? ==> t <= end.value)
    ensures multiset(Window(conv, since, end))
         == multiset(Window(conv, since, Some(t))) + multiset(Window(conv, Some(t), end))
  {
    forall m ensures multiset(Window(conv, since, end))[m]
                  == multiset(Window(conv, since, Some(t)))[m] + multiset(Window(conv, Some(t), end))[m]
    {
      WindowCount(conv, since, end, m);
      WindowCount(conv, since, Some(t), m);
      WindowCount(conv, Some(t), end, m);
    }
  }

  /** Between a page's last time and the cursor that carries on from it there is nothing. */
  lemma {:induction false} BridgeIsEmpty(conv: seq<Msg>, since: Option<int>, last: int, next: int)
    requires last <= next && forall m :: m in conv ==> !(last < m.time <= next)
    ensures Window(conv, since, Some(last)) == Window(conv, since, Some(next))
  {
    if conv != [] {
      BridgeIsEmpty(conv[..|conv| - 1], since, last, next);
      assert conv[|conv| - 1] in conv;
    }
  }

  lemma CountBefore(rows: seq<Msg>, n: nat, t: int, m: Msg)
    requires n <= |rows|
    requires (forall i :: 0 <= i < n ==> rows[i].time <= t) && (forall i :: n <= i < |rows| ==> rows[i].time > t)
    ensures multiset(rows[..n])[m] == if m.time <= t then multiset(rows)[m] else 0
  {
    assert rows == rows[..n] + rows[n..];
    if m.time <= t {
      assert m !in rows[n..];
    } else {
      assert m !in rows[..n];
    }
  }

  lemma SpanOfSorted(conv: seq<Msg>, since: Option<int>, rows: seq<Msg>, n: nat, t: int)
    requires n <= |rows| && multiset(rows) == multiset(Window(conv, since, None))
    requires (forall i :: 0 <= i < n ==> rows[i].time <= t) && (forall i :: n <= i < |rows| ==> rows[i].time > t)
    ensures multiset(rows[..n]) == multiset(Window(conv, since, Some(t)))
  {
    forall m ensures multiset(rows[..n])[m] == multiset(Window(conv, since, Some(t)))[m] {
      WindowCount(conv, since, None, m);
      WindowCount(conv, since, Some(t), m);
      CountBefore(rows, n, t, m);
    }
  }

  /** A page asked for at offset zero is exactly the rows after `since` as far as the page reaches. */
  lemma PageIsExactlyItsSpan(conv: seq<Msg>, since: Option<int>, now: int, limit: nat)
    requires limit > 0 && TimesFit(conv)
    ensures
      var page := Serve(conv, since, None, now, limit, 0);
      multiset(page.messages) == multiset(Window(conv, since, Reach(page)))
  {
    var rows, page := OldestFirst(conv, since, None), Serve(conv, since, None, now, limit, 0);
    PageFacts(conv, since, now, limit, 0);
    OldestFirstSorts(conv, since, None);
    hide Serve, Window, OldestFirst, IsSorted, TimesFit;
    var n := |page.messages|;
    assert rows[0..n] == rows[..n];
    if page.hasMore {
      TimesCross(rows, n, rows[n - 1].time);
      SpanOfSorted(conv, since, rows, n, rows[n - 1].time);
    } else {
      assert rows[..n] == rows;
    }
  }

  lemma SortedRises(rows: seq<Msg>, n: nat)
    requires IsSorted(rows) && n <= |rows|
    ensures TimesRise(rows[..n])
    ensures 0 < n ==> forall m :: m in rows[..n] ==> m.time <= rows[n - 1].time
  {
    forall i, j | 0 <= i <= j < n ensures rows[i].time <= rows[j].time {
      assert i == j || KeyLe(rows[i], rows[j]);
    }
  }

  /** The rows of such a page rise from just after `since` to where the page reaches. */
  lemma PageRises(conv: seq<Msg>, since: Option<int>, now: int, limit: nat)
    requires limit > 0 && TimesFit(conv)
    ensures
      var page := Serve(conv, since, None, now, limit, 0);
      TimesRise(page.messages) && forall m :: m in page.messages ==> InWindow(m, since, Reach(page))
  {
    var rows, page := OldestFirst(conv, since, None), Serve(conv, since, None, now, limit, 0);
    hide Serve, OldestFirst, TimesRise, IsSorted, TimesFit;
    PageFacts(conv, since, now, limit, 0);
    OldestFirstTimes(conv, since, None);
    var n := |page.messages|;
    assert page.messages == rows[..n];
    SortedRises(rows, n);
    forall m | m in page.messages ensures InWindow(m, since, Reach(page)) {
      assert m in rows;
    }
  }

  /** `items` lies between what an early and a late state of the conversation hold of one stretch, in order. */
  predicate DrainOk(first: seq<Msg>, latest: seq<Msg>, items: seq<Msg>, since: Option<int>, end: Option<int>) {
    && multiset(Window(first, since, end)) <= multiset(items) <= multiset(Window(latest, since, end))
    && TimesRise(items)
    && (forall m :: m in items ==> InWindow(m, since, end))
  }

  lemma SumsKeepOrder(a: multiset<Msg>, b: multiset<Msg>, c: multiset<Msg>, d: multiset<Msg>)
    requires a <= c && b <= d
    ensures a + b <= c + d
  {
  }

  lemma RiseJoins(items: seq<Msg>, page: seq<Msg>, t: int)
    requires TimesRise(items) && TimesRise(page)
    requires (forall m :: m in items ==> m.time <= t) && (forall m :: m in page ==> m.time > t)
    ensures TimesRise(items + page)
  {
    forall i, j | 0 <= i <= j < |items + page| ensures (items + page)[i].time <= (items + page)[j].time {
      if i < |items| <= j {
        assert items[i] in items && page[j - |items|] in page;
      }
    }
  }

  /** From the end of one page to the cursor that carries on from it. */
  lemma AcrossTheBridge(first: seq<Msg>, latest: seq<Msg>, items: seq<Msg>, since: Option<int>, last: int, next: int)
    requires DrainOk(first, latest, items, since, Some(last)) && multiset(first) <= multiset(latest)
    requires Bridges(latest, last, Some(next))
    ensures DrainOk(first, latest, items, since, Some(next))
  {
    hide TimesRise;
    forall m | m in first ensures !(last < m.time <= next) {
      assert m in multiset(first);
      assert m in multiset(latest);
    }
    BridgeIsEmpty(first, since, last, next);
    BridgeIsEmpty(latest, since, last, next);
  }

  /** One page asked for at the cursor carries the drain on. */
  lemma PageCarriesOn(first: seq<Msg>, before: seq<Msg>, conv: seq<Msg>, items: seq<Msg>, since: Option<int>,
                      low: int, now: int, limit: nat)
    requires multiset(first) <= multiset(before) <= multiset(conv) && TimesFit(conv) && limit > 0
    requires DrainOk(first, before, items, since, Some(low)) && (since.Some? ==> since.value <= low)
    ensures
      var page := Serve(conv, Some(low), None, now, limit, 0);
      DrainOk(first, conv, items + page.messages, since, Reach(page))
  {
    hide Serve, Window;
    var page := Serve(conv, Some(low), None, now, limit, 0);
    var rows, end := page.messages, Reach(page);
    PageIsExactlyItsSpan(conv, Some(low), now, limit);
    PageRises(conv, Some(low), now, limit);
    RiseJoins(items, rows, low);
    ReachRises(page, low);
    hide TimesRise, Reach;
    WindowGrows(before, conv, since, Some(low));
    WindowGrows(first, conv, Some(low), end);
    WindowJoins(first, since, low, end);
    WindowJoins(conv, since, low, end);
    assert multiset(items + rows) == multiset(items) + multiset(rows);
    SumsKeepOrder(multiset(Window(first, since, Some(low))), multiset(Window(first, Some(low), end)),
                  multiset(items), multiset(rows));
    SumsKeepOrder(multiset(items), multiset(rows),
                  multiset(Window(conv, since, Some(low))), multiset(Window(conv, Some(low), end)));
  }

  lemma ReachRises(page: Page, low: int)
    requires forall m :: m in page.messages ==> m.time > low
    ensures Reach(page).Some? ==> low < Reach(page).value
  {
    if page.messages != [] {
      assert page.messages[|page.messages| - 1] in page.messages;
    }
  }

  lemma {:induction false} ConvsGrow(convs: seq<seq<Msg>>, nows: seq<int>, since: Option<int>, limit: nat, i: nat, j: nat)
    requires IsDrain(convs, nows, since, limit) && i <= j < |convs|
    ensures multiset(convs[i]) <= multiset(convs[j])
  {
    if i < j {
      ConvsGrow(convs, nows, since, limit, i, j - 1);
    }
  }

  /** A page that was followed: the next request goes out at offset zero with a bound that carries on. */
  lemma CursorAfter(conv: seq<Msg>, low: Option<int>, now: int, limit: nat)
    requires limit > 0 && TimesFit(conv) && Serve(conv, low, None, now, limit, 0).hasMore
    requires CarriesOn(conv, low, Serve(conv, low, None, now, limit, 0))
    ensures
      var page := Serve(conv, low, None, now, limit, 0);
      var next := Echo(Some(page.nextSince));
      && page.nextOffset == 0 && next.Some? && Reach(page) == Some(page.nextSince)
      && Bridges(conv, page.nextSince, next) && (low.Some? ==> low.value <= next.value)
  {
    PageFacts(conv, low, now, limit, 0);
    hide OldestFirst, Echo;
    var rows, page := OldestFirst(conv, low, None), Serve(conv, low, None, now, limit, 0);
    assert page.messages[|page.messages| - 1] == rows[|page.messages| - 1];
  }

  lemma DrainFacts(convs: seq<seq<Msg>>, nows: seq<int>, since: Option<int>, limit: nat, i: nat)
    requires IsDrain(convs, nows, since, limit) && i < |convs|
    ensures TimesFit(convs[i])
    ensures i + 1 < |convs| ==> Followed(convs, nows, since, limit, i)
  {
  }

  lemma OneRequest(convs: seq<seq<Msg>>, nows: seq<int>, since: Option<int>, limit: nat, i: nat)
    requires |convs| == |nows| && i < |convs|
    ensures
      var (cursor, offset) := CursorsOf(convs, nows, since, limit, i);
      PageOf(convs, nows, since, limit, i) == Serve(convs[i], Echo(cursor), None, nows[i], limit, offset)
    ensures CursorsOf(convs, nows, since, limit, 0) == (since, 0)
    ensures i + 1 < |convs| ==>
              var page := PageOf(convs, nows, since, limit, i);
              CursorsOf(convs, nows, since, limit, i + 1) == (Some(page.nextSince), page.nextOffset)
  {
    hide Serve, Echo;
  }

  /** Where the drain stands before request `n`: at offset zero, at a bound no lower than where it began. */
  lemma {:induction false} CursorsAdvance(convs: seq<seq<Msg>>, nows: seq<int>, since: Option<int>, limit: nat, n: nat)
    requires IsDrain(convs, nows, since, limit) && n < |convs|
    ensures
      var (cursor, offset) := CursorsOf(convs, nows, since, limit, n);
      && offset == 0
      && (n > 0 ==> Echo(cursor).Some? && (Echo(since).Some? ==> Echo(since).value <= Echo(cursor).value))
  {
    hide Serve, Echo, TimesFit, CarriesOn, Bridges, Reach, CursorsOf, PageOf;
    if n == 0 {
      OneRequest(convs, nows, since, limit, 0);
    } else {
      CursorsAdvance(convs, nows, since, limit, n - 1);
      DrainFacts(convs, nows, since, limit, n - 1);
      OneRequest(convs, nows, since, limit, n - 1);
      hide IsDrain;
      CursorAfter(convs[n - 1], Echo(CursorsOf(convs, nows, since, limit, n - 1).0), nows[n - 1], limit);
    }
  }

  lemma DrainedOneMore(convs: seq<seq<Msg>>, nows: seq<int>, since: Option<int>, limit: nat, n: nat)
    requires |convs| == |nows| && n < |convs|
    ensures Drained(convs, nows, since, limit, n + 1)
         == Drained(convs, nows, since, limit, n) + PageOf(convs, nows, since, limit, n).messages
    ensures Drained(convs, nows, since, limit, 0) == []
  {
    hide PageOf;
  }

  /** However the conversation grows between pages: what was delivered is in order of time, holds every
      row that was there at the start as far as the last page reaches, and no row more often than the
      conversation does at the end; once a page says there is no more, every row of the start is in. */
  lemma {:induction false} DrainDeliversEveryRowOnce(convs: seq<seq<Msg>>, nows: seq<int>, since: Option<int>, limit: nat, n: nat)
    requires IsDrain(convs, nows, since, limit) && n < |convs|
    ensures DrainOk(convs[0], convs[n], Drained(convs, nows, since, limit, n + 1), Echo(since),
                    Reach(PageOf(convs, nows, since, limit, n)))
  {
    CursorsAdvance(convs, nows, since, limit, n);
    OneRequest(convs, nows, since, limit, n);
    DrainedOneMore(convs, nows, since, limit, n);
    DrainFacts(convs, nows, since, limit, n);
    hide Serve, Echo, DrainOk, Reach, IsDrain, TimesFit, CarriesOn, Bridges, CursorsOf, PageOf, Drained;
    if n == 0 {
      FirstPage(convs[0], Echo(since), nows[0], limit);
      assert [] + PageOf(convs, nows, since, limit, 0).messages == PageOf(convs, nows, since, limit, 0).messages;
    } else {
      DrainDeliversEveryRowOnce(convs, nows, since, limit, n - 1);
      NextRequest(convs, nows, since, limit, n);
    }
  }

  /** From one request to the next: the bound of the next carries on from where the last page reached. */
  lemma Handover(convs: seq<seq<Msg>>, nows: seq<int>, since: Option<int>, limit: nat, n: nat)
    requires IsDrain(convs, nows, since, limit) && 0 < n < |convs|
    ensures
      var last, low := PageOf(convs, nows, since, limit, n - 1), Echo(CursorsOf(convs, nows, since, limit, n).0);
      && low.Some? && Reach(last) == Some(last.nextSince) && Bridges(convs[n - 1], last.nextSince, low)
      && PageOf(convs, nows, since, limit, n) == Serve(convs[n], low, None, nows[n], limit, 0)
  {
    hide Serve, Echo, TimesFit, CarriesOn, Bridges, Reach, CursorsOf, PageOf;
    CursorsAdvance(convs, nows, since, limit, n - 1);
    DrainFacts(convs, nows, since, limit, n - 1);
    OneRequest(convs, nows, since, limit, n - 1);
    OneRequest(convs, nows, since, limit, n);
    hide IsDrain;
    CursorAfter(convs[n - 1], Echo(CursorsOf(convs, nows, since, limit, n - 1).0), nows[n - 1], limit);
  }

  lemma NextRequest(convs: seq<seq<Msg>>, nows: seq<int>, since: Option<int>, limit: nat, n: nat)
    requires IsDrain(convs, nows, since, limit) && 0 < n < |convs|
    requires DrainOk(convs[0], convs[n - 1], Drained(convs, nows, since, limit, n), Echo(since),
                     Reach(PageOf(convs, nows, since, limit, n - 1)))
    ensures DrainOk(convs[0], convs[n], Drained(convs, nows, since, limit, n) + PageOf(convs, nows, since, limit, n).messages,
                    Echo(since), Reach(PageOf(convs, nows, since, limit, n)))
  {
    hide Serve, Echo, DrainOk, Reach, TimesFit, CarriesOn, Bridges, CursorsOf, PageOf, Drained, Followed;
    ConvsGrow(convs, nows, since, limit, 0, n - 1);
    ConvsGrow(convs, nows, since, limit, n - 1, n);
    DrainFacts(convs, nows, since, limit, n);
    CursorsAdvance(convs, nows, since, limit, n);
    hide IsDrain;
    Handover(convs, nows, since, limit, n);
    var items, low := Drained(convs, nows, since, limit, n), Echo(CursorsOf(convs, nows, since, limit, n).0);
    AcrossTheBridge(convs[0], convs[n - 1], items, Echo(since), PageOf(convs, nows, since, limit, n - 1).nextSince, low.value);
    PageCarriesOn(convs[0], convs[n - 1], convs[n], items, Echo(since), low.value, nows[n], limit);
  }

  lemma FirstPage(conv: seq<Msg>, since: Option<int>, now: int, limit: nat)
    requires limit > 0 && TimesFit(conv)
    ensures
      var page := Serve(conv, since, None, now, limit, 0);
      DrainOk(conv, conv, page.messages, since, Reach(page))
  {
    hide Serve, Window, TimesRise, Reach;
    PageIsExactlyItsSpan(conv, since, now, limit);
    PageRises(conv, since, now, limit);
  }
}
