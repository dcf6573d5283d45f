/** The native message face (`page_slice` in `src/server/handlers/messages.rs`): newest first, by offset. */
module Messages {
  import opened Wrappers
  import opened Pulls
  import opened Sorting

  datatype Query = Query(start: Option<int>, end: Option<int>, keyword: Msg -> bool, limit: nat, offset: nat)

  datatype Slice = Slice(messages: seq<Msg>, hasMore: bool, nextOffset: nat)

  /** Both time bounds are inclusive here. */
  predicate Matches(m: Msg, q: Query) {
    (q.start.Some? ==> m.time >= q.start.value) && (q.end.Some? ==> m.time <= q.end.value) && q.keyword(m)
  }

  function Matching(conv: seq<Msg>, q: Query): seq<Msg> {
    if conv == [] then []
    else
      var rest, last := Matching(conv[..|conv| - 1], q), conv[|conv| - 1];
      if Matches(last, q) then rest + [last] else rest
  }

  predicate KeyGe(a: Msg, b: Msg) {
    KeyLe(b, a)
  }

  /** The rows a query pages through: the matching ones, largest key first. */
  function NewestFirst(conv: seq<Msg>, q: Query): seq<Msg> {
    StableSort(Matching(conv, q), KeyGe)
  }

  function PageSlice(conv: seq<Msg>, q: Query): Slice {
    var rows := NewestFirst(conv, q);
    var start := Min(q.offset, |rows|);
    var page := rows[start..Min(start + q.limit, |rows|)];
    var next := q.offset + |page|;
    Slice(page, next < |rows|, next)
  }

  lemma {:induction false} MatchingMeans(conv: seq<Msg>, q: Query, m: Msg)
    ensures multiset(Matching(conv, q))[m] == if Matches(m, q) then multiset(conv)[m] else 0
  {
    if conv != [] {
      var init, last := conv[..|conv| - 1], conv[|conv| - 1];
      MatchingMeans(init, q, m);
      assert conv == init + [last];
    }
  }

  /** By time, sequence number and local id, the largest first. */
  predicate Backwards(rows: seq<Msg>) {
    forall i, j :: 0 <= i < j < |rows| ==>
      && rows[i].time >= rows[j].time
      && (rows[i].time == rows[j].time ==> rows[i].sortSeq >= rows[j].sortSeq)
      && (rows[i].time == rows[j].time && rows[i].sortSeq == rows[j].sortSeq ==> rows[i].localId >= rows[j].localId)
  }

  /** The list holds each row with the keyword between the two bounds, both included, as often as the
      conversation does, and no other row, newest first. */
  lemma NewestFirstMeans(conv: seq<Msg>, q: Query, m: Msg)
    ensures
      var rows := NewestFirst(conv, q);
      && Backwards(rows)
      && multiset(rows)[m] == if (q.start.None? || q.start.value <= m.time) && (q.end.None? || m.time <= q.end.value) && q.keyword(m)
                              then multiset(conv)[m] else 0
  {
    var rows := NewestFirst(conv, q);
    NewestFirstSorts(conv, q);
    assert forall i, j :: 0 <= i < j < |rows| ==> KeyGe(rows[i], rows[j]);
  }

  /** The list holds each matching row as often as the conversation does and no other row, newest first. */
  lemma NewestFirstSorts(conv: seq<Msg>, q: Query)
    ensures SortedBy(NewestFirst(conv, q), KeyGe)
    ensures forall m :: multiset(NewestFirst(conv, q))[m] == if Matches(m, q) then multiset(conv)[m] else 0
  {
    assert TotalPreorder(KeyGe);
    hide TotalPreorder, StableSort, SortedBy;
    StableSortSorts(Matching(conv, q), KeyGe);
    forall m ensures multiset(NewestFirst(conv, q))[m] == if Matches(m, q) then multiset(conv)[m] else 0 {
      MatchingMeans(conv, q, m);
    }
  }

  /** One slice: the rows from the offset on, as many as asked for or as there are, and whether more follow. */
  lemma SliceMeans(conv: seq<Msg>, q: Query)
    ensures
      var rows, slice := NewestFirst(conv, q), PageSlice(conv, q);
      && |slice.messages| <= q.limit
      && (q.offset < |rows| ==>
            && q.offset + |slice.messages| == slice.nextOffset <= |rows|
            && slice.messages == rows[q.offset..slice.nextOffset]
            && (|slice.messages| < q.limit ==> slice.nextOffset == |rows|)
            && (slice.hasMore <==> slice.nextOffset < |rows|))
      && (q.offset >= |rows| ==> slice.messages == [] && !slice.hasMore)
  {
    hide NewestFirst;
  }

  /** Following `nextOffset` through one query gives the whole list, slice by slice. */
  function Follow(conv: seq<Msg>, q: Query): seq<Msg>
    requires q.limit > 0
    decreases |NewestFirst(conv, q)| - q.offset
  {
    var slice := PageSlice(conv, q);
    NewestFirstIgnoresPage(conv, q, q.(offset := slice.nextOffset));
    if slice.hasMore then slice.messages + Follow(conv, q.(offset := slice.nextOffset)) else slice.messages
  }

  lemma {:induction false} MatchingIgnoresPage(conv: seq<Msg>, q: Query, r: Query)
    requires q.start == r.start && q.end == r.end && q.keyword == r.keyword
    ensures Matching(conv, q) == Matching(conv, r)
  {
    if conv != [] {
      MatchingIgnoresPage(conv[..|conv| - 1], q, r);
    }
  }

  lemma NewestFirstIgnoresPage(conv: seq<Msg>, q: Query, r: Query)
    requires q.start == r.start && q.end == r.end && q.keyword == r.keyword
    ensures NewestFirst(conv, q) == NewestFirst(conv, r)
  {
    MatchingIgnoresPage(conv, q, r);
  }

  lemma {:induction false} FollowGivesAll(conv: seq<Msg>, q: Query)
    requires q.limit > 0 && q.offset <= |NewestFirst(conv, q)|
    ensures Follow(conv, q) == NewestFirst(conv, q)[q.offset..]
    decreases |NewestFirst(conv, q)| - q.offset
  {
    var slice := PageSlice(conv, q);
    NewestFirstIgnoresPage(conv, q, q.(offset := slice.nextOffset));
    if slice.hasMore {
      FollowGivesAll(conv, q.(offset := slice.nextOffset));
      assert NewestFirst(conv, q)[q.offset..] == slice.messages + NewestFirst(conv, q)[slice.nextOffset..];
    }
  }
}
