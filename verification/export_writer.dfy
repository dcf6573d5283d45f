/** Writing one session to disk (`SessionWriter` in `src/export.rs`): everything goes to a `.part` file,
    and only a finished file gets its final name, by renaming.

    A directory maps a file name, folded as the file system compares it, to what the file holds. A file's
    text is kept as the lines or the document it was written from. */
module ExportWriter {
  import opened Wrappers
  import opened Sorting
  import opened Texts
  import opened ExportNames

  datatype Row = Row(id: string, sender: string, accountName: string, groupNickname: string, timestamp: int, body: string)

  datatype Format = JsonLines | Json

  /** One session's line in the manifest. */
  datatype Entry = Entry(talker: string, file: Option<string>, messages: nat, displayName: string, withMedia: Option<bool>)

  datatype Line = Header(target: Target) | Message(row: Row)

  /** A member is the first row seen of a sender. */
  datatype Content =
    | Lines(lines: seq<Line>)
    | Document(target: Target, members: seq<Row>, messages: seq<Row>)
    | Manifest(entries: seq<Entry>)
    | Foreign(lastByte: Option<char>)

  type Dir = map<string, Content>

  function Extension(format: Format): (ext: string)
    ensures '.' !in ext && ext in {"json", "jsonl"}
  {
    if format.Json? then "json" else "jsonl"
  }

  function PathOf(stem: string, format: Format): string {
    stem + "." + Extension(format)
  }

  function PartOf(path: string): string {
    path + ".part"
  }

  /** The last byte of a file: a line ends with a newline, a JSON document with a brace. */
  function LastByte(c: Content): Option<char> {
    match c
    case Lines(lines) => if lines == [] then None else Some('\n')
    case Document(_, _, _) => Some('}')
    case Manifest(_) => Some('}')
    case Foreign(last) => last
  }

  function IsComplete(dir: Dir, path: string, format: Format): bool {
    Fold(path) in dir && LastByte(dir[Fold(path)]) == Some(if format.Json? then '}' else '\n')
  }

  // ---- one page, sorted -------------------------------------------------------------------------

  predicate RowLe(a: Row, b: Row) {
    a.timestamp < b.timestamp || (a.timestamp == b.timestamp && (a.id == b.id || Less(a.id, b.id)))
  }

  lemma RowOrder(a: Row, b: Row, c: Row)
    ensures RowLe(a, b) || RowLe(b, a)
    ensures RowLe(a, b) && RowLe(b, c) ==> RowLe(a, c)
  {
    LessIsTotal(a.id, b.id);
    if Less(a.id, b.id) && Less(b.id, c.id) {
      LessIsTransitive(a.id, b.id, c.id);
    }
  }

  /** Stable sort of one page by time, then message id. */
  function SortPage(rows: seq<Row>): seq<Row> {
    StableSort(rows, RowLe)
  }

  predicate RowsSorted(rows: seq<Row>) {
    SortedBy(rows, RowLe)
  }

  lemma RowsAreOrdered()
    ensures TotalPreorder(RowLe)
  {
    forall a, b, c ensures (RowLe(a, b) || RowLe(b, a)) && (RowLe(a, b) && RowLe(b, c) ==> RowLe(a, c)) {
      RowOrder(a, b, c);
    }
  }

  lemma SortPageSorts(rows: seq<Row>)
    ensures RowsSorted(SortPage(rows)) && multiset(SortPage(rows)) == multiset(rows) && |SortPage(rows)| == |rows|
  {
    hide TotalPreorder, StableSort, SortedBy;
    RowsAreOrdered();
    StableSortSorts(rows, RowLe);
  }

  // ---- a whole session ---------------------------------------------------------------------------

  /** The pages one after the other, each sorted. */
  function SortedPages(pages: seq<seq<Row>>): seq<Row> {
    if pages == [] then [] else SortedPages(pages[..|pages| - 1]) + SortPage(pages[|pages| - 1])
  }

  function Total(pages: seq<seq<Row>>): nat {
    if pages == [] then 0 else Total(pages[..|pages| - 1]) + |pages[|pages| - 1]|
  }

  function Messages(rows: seq<Row>): seq<Line> {
    seq(|rows|, i requires 0 <= i < |rows| => Message(rows[i]))
  }

  /** The first row of each sender, in order. */
  function MembersOf(rows: seq<Row>): seq<Row> {
    if rows == [] then []
    else
      var rest, last := MembersOf(rows[..|rows| - 1]), rows[|rows| - 1];
      if last.sender in Senders(rows[..|rows| - 1]) then rest else rest + [last]
  }

  function Senders(rows: seq<Row>): set<string> {
    set r | r in rows :: r.sender
  }

  /** What a finished session holds. */
  function Delivered(target: Target, pages: seq<seq<Row>>, format: Format): Content {
    var rows := SortedPages(pages);
    if format.Json? then Document(target, MembersOf(rows), rows)
    else Lines([Header(target)] + Messages(rows))
  }

  // ---- what a finished file holds, told from the pages -------------------------------------------

  /** The rows of one time and id, in order. */
  function OfKey(rows: seq<Row>, timestamp: int, id: string): seq<Row> {
    if rows == [] then []
    else
      var rest, last := OfKey(rows[..|rows| - 1], timestamp, id), rows[|rows| - 1];
      if last.timestamp == timestamp && last.id == id then rest + [last] else rest
  }

  /** These are the rows of the page by time, then id; rows with the same of both are in the order they
      came. */
  ghost predicate PageInOrder(rows: seq<Row>, page: seq<Row>) {
    && multiset(rows) == multiset(page)
    && (forall i, j :: 0 <= i < j < |rows| ==>
          rows[i].timestamp < rows[j].timestamp || (rows[i].timestamp == rows[j].timestamp && !Less(rows[j].id, rows[i].id)))
    && (forall timestamp, id :: OfKey(rows, timestamp, id) == OfKey(page, timestamp, id))
  }

  /** The rows are the pages one after the other, each in order. */
  ghost predicate PagesInOrder(rows: seq<Row>, pages: seq<seq<Row>>) {
    Total([]) == 0 && |rows| == Total(pages) && forall i :: 0 <= i < |pages| ==> PageIn(rows, pages, i)
  }

  /** A page begins where those before it end, and ends as many rows further on. */
  ghost predicate PageIn(rows: seq<Row>, pages: seq<seq<Row>>, i: nat)
    requires i < |pages|
  {
    var from := Total(pages[..i]);
    && Total(pages[..i + 1]) == from + |pages[i]| <= |rows|
    && PageInOrder(rows[from..from + |pages[i]|], pages[i])
  }

  predicate NoneBefore(rows: seq<Row>, sender: string, p: nat)
    requires p <= |rows|
  {
    forall q :: 0 <= q < p ==> rows[q].sender != sender
  }

  /** Where a sender is first met; past the end if nowhere. */
  function FirstOf(rows: seq<Row>, sender: string): (p: nat)
    ensures p <= |rows|
    ensures p < |rows| ==> rows[p].sender == sender
    ensures NoneBefore(rows, sender, p)
  {
    if rows == [] || rows[0].sender == sender then 0
    else
      assert forall q :: 0 < q < |rows| ==> rows[q] == rows[1..][q - 1];
      1 + FirstOf(rows[1..], sender)
  }

  /** This is the first row met of its sender. */
  predicate IsFirst(m: Row, rows: seq<Row>) {
    var p := FirstOf(rows, m.sender);
    p < |rows| && rows[p] == m
  }

  /** These are in the order they are first met. */
  predicate AsMet(members: seq<Row>, rows: seq<Row>) {
    forall k, l :: 0 <= k < l < |members| ==> FirstOf(rows, members[k].sender) < FirstOf(rows, members[l].sender)
  }

  /** One row for every sender, the first one met, in the order they are met. */
  ghost predicate FirstRows(members: seq<Row>, rows: seq<Row>) {
    && (forall m :: m in members ==> IsFirst(m, rows))
    && AsMet(members, rows)
    && (forall r :: r in rows ==> HasSender(members, r.sender))
  }

  predicate HasSender(members: seq<Row>, sender: string) {
    exists m :: m in members && m.sender == sender
  }

  /** The file holds the header and every row of these pages: as lines behind the header line, or as a
      document with its members. */
  ghost predicate FileHolds(c: Content, target: Target, pages: seq<seq<Row>>, format: Format) {
    match c
    case Lines(lines) =>
      && format.JsonLines? && |lines| > 0 && lines[0] == Header(target)
      && exists rows :: LinesAre(lines, rows) && PagesInOrder(rows, pages)
    case Document(of, members, messages) =>
      format.Json? && of == target && PagesInOrder(messages, pages) && FirstRows(members, messages)
    case _ => false
  }

  /** Behind the first line, one message for each row. */
  predicate LinesAre(lines: seq<Line>, rows: seq<Row>) {
    |lines| == 1 + |rows| && forall i :: 0 <= i < |rows| ==> lines[1 + i] == Message(rows[i])
  }

  lemma FirstOfMore(rows: seq<Row>, last: Row, sender: string)
    ensures FirstOf(rows + [last], sender)
         == if FirstOf(rows, sender) < |rows| then FirstOf(rows, sender) else if last.sender == sender then |rows| else |rows| + 1
  {
    var p, q, all := FirstOf(rows + [last], sender), FirstOf(rows, sender), rows + [last];
    assert forall i :: 0 <= i < |rows| ==> all[i] == rows[i];
    assert all[|rows|] == last;
  }

  lemma HasSenderMore(members: seq<Row>, last: Row, sender: string)
    requires HasSender(members, sender) || last.sender == sender
    ensures HasSender(members + [last], sender)
  {
    if HasSender(members, sender) {
      var m :| m in members && m.sender == sender;
      assert m in members + [last];
    } else {
      assert last in members + [last];
    }
  }

  lemma FirstStays(m: Row, rows: seq<Row>, last: Row)
    requires IsFirst(m, rows)
    ensures IsFirst(m, rows + [last]) && FirstOf(rows + [last], m.sender) == FirstOf(rows, m.sender) < |rows|
  {
    hide NoneBefore;
    FirstOfMore(rows, last, m.sender);
  }

  lemma MembersStay(members: seq<Row>, rows: seq<Row>, last: Row)
    requires (forall m :: m in members ==> IsFirst(m, rows)) && AsMet(members, rows)
    ensures forall m :: m in members ==> IsFirst(m, rows + [last]) && FirstOf(rows + [last], m.sender) < |rows|
    ensures AsMet(members, rows + [last])
  {
    hide FirstOf, NoneBefore, IsFirst;
    forall m | m in members
      ensures IsFirst(m, rows + [last]) && FirstOf(rows + [last], m.sender) == FirstOf(rows, m.sender) < |rows|
    {
      FirstStays(m, rows, last);
    }
  }

  /** A sender met before adds no member. */
  lemma KnownSender(members: seq<Row>, rows: seq<Row>, last: Row)
    requires FirstRows(members, rows) && FirstOf(rows, last.sender) < |rows|
    ensures FirstRows(members, rows + [last])
  {
    MembersStay(members, rows, last);
    hide FirstOf, NoneBefore, AsMet, IsFirst;
    assert rows[FirstOf(rows, last.sender)] in rows;
  }

  lemma MetLast(members: seq<Row>, rows: seq<Row>, last: Row)
    requires AsMet(members, rows)
    requires forall m :: m in members ==> FirstOf(rows, m.sender) < FirstOf(rows, last.sender)
    ensures AsMet(members + [last], rows)
  {
    hide FirstOf, NoneBefore;
  }

  lemma NewIsFirst(rows: seq<Row>, last: Row)
    requires FirstOf(rows, last.sender) == |rows|
    ensures IsFirst(last, rows + [last]) && FirstOf(rows + [last], last.sender) == |rows|
  {
    hide NoneBefore, FirstOf;
    FirstOfMore(rows, last, last.sender);
  }

  lemma AllHaveSenders(members: seq<Row>, rows: seq<Row>, last: Row)
    requires forall r :: r in rows ==> HasSender(members, r.sender)
    ensures forall r :: r in rows + [last] ==> HasSender(members + [last], r.sender)
  {
    hide HasSender;
    forall r | r in rows + [last] ensures HasSender(members + [last], r.sender) {
      HasSenderMore(members, last, r.sender);
    }
  }

  lemma NewSender(members: seq<Row>, rows: seq<Row>, last: Row)
    requires FirstRows(members, rows) && FirstOf(rows, last.sender) == |rows|
    ensures FirstRows(members + [last], rows + [last])
  {
    hide FirstOf, NoneBefore, AsMet, IsFirst, HasSender;
    MembersStay(members, rows, last);
    NewIsFirst(rows, last);
    MetLast(members, rows + [last], last);
    AllHaveSenders(members, rows, last);
  }

  lemma {:induction false} MembersAreFirst(rows: seq<Row>)
    ensures FirstRows(MembersOf(rows), rows)
  {
    if rows != [] {
      var init, last := rows[..|rows| - 1], rows[|rows| - 1];
      MembersAreFirst(init);
      assert rows == init + [last];
      assert FirstOf(init, last.sender) < |init| <==> last.sender in Senders(init);
      hide FirstRows, FirstOf, Senders;
      if last.sender in Senders(init) {
        KnownSender(MembersOf(init), init, last);
      } else {
        NewSender(MembersOf(init), init, last);
      }
    }
  }

  lemma {:induction false} OfKeyIsEquals(rows: seq<Row>, r: Row)
    ensures OfKey(rows, r.timestamp, r.id) == Equals(rows, r, RowLe)
  {
    if rows != [] {
      OfKeyIsEquals(rows[..|rows| - 1], r);
      LessIsTotal(rows[|rows| - 1].id, r.id);
    }
  }

  lemma RowsByKey(rows: seq<Row>)
    requires RowsSorted(rows)
    ensures forall i, j :: 0 <= i < j < |rows| ==>
              rows[i].timestamp < rows[j].timestamp || (rows[i].timestamp == rows[j].timestamp && !Less(rows[j].id, rows[i].id))
  {
    hide Less;
    forall i, j | 0 <= i < j < |rows|
      ensures rows[i].timestamp < rows[j].timestamp || (rows[i].timestamp == rows[j].timestamp && !Less(rows[j].id, rows[i].id))
    {
      LessIsTotal(rows[i].id, rows[j].id);
      assert RowLe(rows[i], rows[j]);
    }
  }

  lemma SortedPageInOrder(page: seq<Row>)
    ensures PageInOrder(SortPage(page), page)
  {
    SortPageSorts(page);
    RowsByKey(SortPage(page));
    hide TotalPreorder, Equals, StableSort, OfKey, Less;
    RowsAreOrdered();
    forall timestamp, id ensures OfKey(SortPage(page), timestamp, id) == OfKey(page, timestamp, id) {
      var r := Row.Row(id, "", "", "", timestamp, "");
      StableSortIsStable(page, r, RowLe);
      OfKeyIsEquals(SortPage(page), r);
      OfKeyIsEquals(page, r);
    }
  }

  lemma NoPages()
    ensures Total([]) == 0
  {
  }

  lemma OneMorePage(pages: seq<seq<Row>>, i: nat)
    requires i < |pages|
    ensures Total(pages[..i + 1]) == Total(pages[..i]) + |pages[i]|
  {
    assert pages[..i + 1][..i] == pages[..i];
  }

  lemma SortedPagesInOrder(pages: seq<seq<Row>>)
    ensures PagesInOrder(SortedPages(pages), pages)
  {
    NoPages();
    hide SortPage, PageInOrder, RowsSorted, Total, SortedPages;
    SortedPagesLength(pages);
    forall i | 0 <= i < |pages|
      ensures PageIn(SortedPages(pages), pages, i)
    {
      PagesKeepTheirRows(pages, i);
      SortPageSorts(pages[i]);
      SortedPageInOrder(pages[i]);
      OneMorePage(pages, i);
    }
  }

  /** Whatever these pages were, what is delivered holds them. */
  lemma DeliveredHolds(target: Target, pages: seq<seq<Row>>, format: Format)
    ensures FileHolds(Delivered(target, pages, format), target, pages, format)
  {
    hide PagesInOrder, FirstRows, MembersOf;
    var rows := SortedPages(pages);
    SortedPagesInOrder(pages);
    if format.Json? {
      MembersAreFirst(rows);
    } else {
      assert LinesAre([Header(target)] + Messages(rows), rows);
    }
  }

  /** What outside the writer decides: whether the part file could be created, the pages that came and
      whether all of them were fetched and written, whether the file could be flushed and renamed. */
  datatype Feed = Feed(createOk: bool, pages: seq<seq<Row>>, fetchOk: bool, flushOk: bool, renameOk: bool)

  class Disk {
    var files: Dir

    constructor (files: Dir)
      ensures this.files == files
    {
      this.files := files;
    }

    method Write(path: string, c: Content)
      modifies this
      ensures files == old(files)[Fold(path) := c]
    {
      files := files[Fold(path) := c];
    }

    method Remove(path: string)
      modifies this
      ensures files == old(files) - {Fold(path)}
    {
      files := files - {Fold(path)};
    }

    method Rename(from: string, to: string)
      requires Fold(from) in files
      modifies this
      ensures files == (old(files) - {Fold(from)})[Fold(to) := old(files[Fold(from)])]
    {
      files := (files - {Fold(from)})[Fold(to) := files[Fold(from)]];
    }
  }

  class SessionWriter {
    const disk: Disk
    const target: Target
    const format: Format
    const path: string
    var rows: seq<Row>
    var members: seq<Row>
    var seen: set<string>
    var count: nat
    ghost var pages: seq<seq<Row>>
    ghost const before: Dir

    /** The part file (lines) or the buffer (document) holds the rows so far. */
    ghost predicate Holds()
      reads this, disk
    {
      && count == |rows|
      && (format.Json? ==> members == MembersOf(rows) && seen == Senders(rows) && disk.files == before)
      && (format.JsonLines? ==>
            disk.files == before[Fold(PartOf(path)) := Lines([Header(target)] + Messages(rows))])
    }

    /** The writer stands after these pages. */
    ghost predicate Valid()
      reads this, disk
    {
      Holds() && rows == SortedPages(pages) && count == Total(pages)
    }

    /** The part file holds the header and the pages so far. */
    ghost predicate PartHolds()
      reads this, disk
    {
      Fold(PartOf(path)) in disk.files && FileHolds(disk.files[Fold(PartOf(path))], target, pages, JsonLines)
    }

    lemma SoFar()
      requires Valid()
      ensures format.JsonLines? ==> PartHolds()
    {
      DeliveredHolds(target, pages, JsonLines);
      hide FileHolds;
    }

    /** Begins the part file with the header line; a document is buffered instead. */
    constructor Begin(disk: Disk, target: Target, stem: string, format: Format)
      modifies disk
      ensures this.disk == disk && this.target == target && this.format == format && path == PathOf(stem, format)
      ensures Valid() && pages == [] && before == old(disk.files)
    {
      this.disk, this.target, this.format, this.path := disk, target, format, PathOf(stem, format);
      rows, members, seen, count, pages := [], [], {}, 0, [];
      before := disk.files;
      new;
      if format.JsonLines? {
        disk.Write(PartOf(path), Lines([Header(target)]));
        assert [Header(target)] + Messages([]) == [Header(target)];
      }
    }

    method PutAll(sorted: seq<Row>)
      requires Holds()
      modifies this`rows, this`members, this`seen, this`count, disk
      ensures Holds() && rows == old(rows) + sorted && count == old(count) + |sorted|
    {
      assert count == |rows|;
      hide Holds;
      ghost var start := rows;
      var i := 0;
      while i < |sorted|
        invariant 0 <= i <= |sorted|
        invariant rows == start + sorted[..i] && Holds() && count == |start| + i
      {
        assert start + sorted[..i] + [sorted[i]] == start + sorted[..i + 1];
        Put(sorted[i]);
        i := i + 1;
      }
      assert sorted[..i] == sorted;
    }

    /** Takes in the next page: sorted, counted, and written or buffered row by row. */
    method Page(page: seq<Row>)
      requires Valid()
      modifies this, disk
      ensures Valid() && pages == old(pages) + [page]
      ensures format.JsonLines? ==> PartHolds()
    {
      SortPageSorts(page);
      assert (pages + [page])[..|pages|] == pages;
      hide SortPage, Holds, RowsSorted, PartHolds;
      PutAll(SortPage(page));
      pages := pages + [page];
      SoFar();
    }

    method Put(r: Row)
      requires Holds()
      modifies this`rows, this`members, this`seen, this`count, disk
      ensures Holds() && rows == old(rows) + [r] && |rows| == count
    {
      assert (rows + [r])[..|rows|] == rows;
      if format.Json? {
        if r.sender !in seen {
          members := members + [r];
        }
        assert Senders(rows + [r]) == Senders(rows) + {r.sender};
        seen := seen + {r.sender};
      } else {
        assert [Header(target)] + Messages(rows + [r]) == [Header(target)] + Messages(rows) + [Message(r)];
        disk.Write(PartOf(path), Lines([Header(target)] + Messages(rows) + [Message(r)]));
      }
      rows := rows + [r];
      count := count + 1;
    }

    /** Gives up: whatever the attempt left behind is removed. */
    method Abandon()
      requires Valid()
      modifies disk
      ensures disk.files == before - {Fold(PartOf(path))}
    {
      disk.Remove(PartOf(path));
    }

    /** Finishes: the part file gets its final name, or disappears. */
    method Finish(flushOk: bool, renameOk: bool) returns (written: Option<nat>)
      requires Valid()
      modifies disk
      ensures written == if flushOk && renameOk then Some(Total(pages)) else None
      ensures disk.files ==
              if flushOk && renameOk then (before - {Fold(PartOf(path))})[Fold(path) := Delivered(target, pages, format)]
              else before - {Fold(PartOf(path))}
      ensures written.Some? ==>
                Fold(path) in disk.files && FileHolds(disk.files[Fold(path)], target, pages, format)
    {
      DeliveredHolds(target, pages, format);
      hide FileHolds;
      if !flushOk {
        disk.Remove(PartOf(path));
        return None;
      }
      if format.Json? {
        disk.Write(PartOf(path), Document(target, members, rows));
      }
      if !renameOk {
        disk.Remove(PartOf(path));
        return None;
      }
      disk.Rename(PartOf(path), path);
      written := Some(count);
    }
  }

  /** One session from begin to finish, as the value of the directory it leaves. */
  function WriteSession(dir: Dir, target: Target, stem: string, feed: Feed, format: Format): (Dir, Option<nat>) {
    var path := PathOf(stem, format);
    if format.JsonLines? && !feed.createOk then (dir, None)
    else if !(feed.fetchOk && feed.flushOk && feed.renameOk) then (dir - {Fold(PartOf(path))}, None)
    else
      ((dir - {Fold(PartOf(path))})[Fold(path) := Delivered(target, feed.pages, format)], Some(Total(feed.pages)))
  }

  method ExportSession(disk: Disk, target: Target, stem: string, feed: Feed, format: Format) returns (written: Option<nat>)
    modifies disk
    ensures (disk.files, written) == WriteSession(old(disk.files), target, stem, feed, format)
    ensures
      var path := Fold(PathOf(stem, format));
      written.Some? ==> path in disk.files && FileHolds(disk.files[path], target, feed.pages, format)
  {
    hide FileHolds;
    if format.JsonLines? && !feed.createOk {
      return None;
    }
    var w := new SessionWriter.Begin(disk, target, stem, format);
    var i := 0;
    while i < |feed.pages|
      invariant 0 <= i <= |feed.pages|
      invariant w.Valid() && w.pages == feed.pages[..i]
      invariant w.disk == disk && fresh(w)
    {
      assert feed.pages[..i + 1] == feed.pages[..i] + [feed.pages[i]];
      w.Page(feed.pages[i]);
      i := i + 1;
    }
    assert feed.pages[..i] == feed.pages;
    if !feed.fetchOk {
      w.Abandon();
      return None;
    }
    written := w.Finish(feed.flushOk, feed.renameOk);
  }

  // ---- what a session promises --------------------------------------------------------------------

  lemma PartIsAnotherFile(path: string)
    ensures Fold(PartOf(path)) != Fold(path)
  {
  }

  /** A failed session leaves the final name as it was and no part file of its own; a successful one puts
      the header and then every page, each sorted, under the final name; nothing else ever changes. */
  lemma SessionTouchesItsOwnFiles(dir: Dir, target: Target, stem: string, feed: Feed, format: Format)
    ensures
      var (dir', written) := WriteSession(dir, target, stem, feed, format);
      var path, part := Fold(PathOf(stem, format)), Fold(PartOf(PathOf(stem, format)));
      && (forall k :: k != path && k != part ==> (k in dir' <==> k in dir) && (k in dir ==> dir'[k] == dir[k]))
      && (part in dir' ==> part in dir && dir'[part] == dir[part] && format.JsonLines? && !feed.createOk)
      && (written.None? ==> (path in dir' <==> path in dir) && (path in dir ==> dir'[path] == dir[path]))
      && (written.Some? ==> path in dir' && dir'[path] == Delivered(target, feed.pages, format)
                            && FileHolds(dir'[path], target, feed.pages, format)
                            && written.value == Total(feed.pages))
  {
    DeliveredHolds(target, feed.pages, format);
    hide FileHolds;
    PartIsAnotherFile(PathOf(stem, format));
  }

  /** The rows of a delivered session are, page by page, a sorted rearrangement of what was fetched. */
  lemma {:induction false} PagesKeepTheirRows(pages: seq<seq<Row>>, i: nat)
    requires i < |pages|
    ensures
      var before, page := Total(pages[..i]), SortPage(pages[i]);
      && before + |page| <= |SortedPages(pages)| == Total(pages)
      && SortedPages(pages)[before..before + |page|] == page
      && RowsSorted(page) && multiset(page) == multiset(pages[i])
    decreases |pages|
  {
    hide SortPage, RowsSorted;
    var init, last := pages[..|pages| - 1], SortPage(pages[|pages| - 1]);
    SortPageSorts(pages[i]);
    SortPageSorts(pages[|pages| - 1]);
    SortedPagesLength(init);
    var before := Total(pages[..i]);
    if i < |pages| - 1 {
      PagesKeepTheirRows(init, i);
      assert init[..i] == pages[..i];
      SliceOfFirst(SortedPages(init), last, before, before + |pages[i]|);
    } else {
      assert (SortedPages(init) + last)[before..] == last;
    }
  }

  lemma SliceOfFirst(a: seq<Row>, b: seq<Row>, i: nat, j: nat)
    requires i <= j <= |a|
    ensures (a + b)[i..j] == a[i..j]
  {
  }

  lemma {:induction false} SortedPagesLength(pages: seq<seq<Row>>)
    ensures |SortedPages(pages)| == Total(pages)
  {
    if pages != [] {
      SortedPagesLength(pages[..|pages| - 1]);
      SortPageSorts(pages[|pages| - 1]);
    }
  }
}
