/** Paging for an agent (`src/mcp.rs`): pages of the two message faces, cut down to a number of items and a
    character budget, and the cursors given back with them. */
module Mcp {
  import opened Wrappers
  import opened Decimals
  import opened TimeBounds
  import opened Sorting
  import opened Pulls
  import opened PullDrains
  import opened Messages

  const CHAR_BUDGET: nat := 32 * 1024
  const DEFAULT_LIMIT: nat := 50
  const MAX_LIMIT: nat := 200

  function ClampLimit(limit: Option<nat>): (n: nat)
    ensures 1 <= n <= 200 && (limit.None? ==> n == 50)
    ensures limit.Some? && n != limit.value ==> (limit.value == 0 && n == 1) || (limit.value > 200 && n == 200)
  {
    var n := if limit.Some? then limit.value else DEFAULT_LIMIT;
    if n < 1 then 1 else if n > MAX_LIMIT then MAX_LIMIT else n
  }

  // ---- cutting a page ---------------------------------------------------------------------------

  function Sum(sizes: seq<nat>): nat {
    if sizes == [] then 0 else Sum(sizes[..|sizes| - 1]) + sizes[|sizes| - 1]
  }

  /** Keeping `k` of these items is within the budget; a single item always is. */
  predicate Fits(sizes: seq<nat>, k: nat, budget: nat) {
    k <= |sizes| && (k <= 1 || Sum(sizes[..k]) <= budget)
  }

  /** How many items to keep: the most that fit, and the first one whatever its size. */
  method ProjectMessages(sizes: seq<nat>, maxItems: nat, budget: nat) returns (kept: nat, truncated: bool)
    requires maxItems > 0
    ensures kept <= maxItems && Fits(sizes, kept, budget)
    ensures kept < |sizes| && kept < maxItems ==> !Fits(sizes, kept + 1, budget)
    ensures truncated <==> kept < |sizes|
    ensures kept == Kept(sizes, maxItems, budget)
  {
    kept := 0;
    var used := 0;
    while kept < |sizes| && kept < maxItems
      invariant kept <= |sizes| && kept <= maxItems
      invariant used == Sum(sizes[..kept]) && Fits(sizes, kept, budget)
      invariant Kept(sizes, maxItems, budget) == KeptFrom(sizes, kept, maxItems, budget)
    {
      assert sizes[..kept + 1][..kept] == sizes[..kept];
      if kept != 0 && used + sizes[kept] > budget {
        break;
      }
      used := used + sizes[kept];
      kept := kept + 1;
    }
    truncated := kept < |sizes|;
  }

  function KeptFrom(sizes: seq<nat>, k: nat, maxItems: nat, budget: nat): (kept: nat)
    requires k <= |sizes| && k <= maxItems
    ensures k <= kept <= |sizes| && kept <= maxItems
    decreases |sizes| - k
  {
    if k == |sizes| || k == maxItems || !Fits(sizes, k + 1, budget) then k
    else KeptFrom(sizes, k + 1, maxItems, budget)
  }

  function Kept(sizes: seq<nat>, maxItems: nat, budget: nat): (kept: nat)
    ensures kept <= |sizes| && kept <= maxItems
    ensures sizes != [] && maxItems > 0 ==> kept > 0
  {
    KeptFrom(sizes, 0, maxItems, budget)
  }

  /** The sizes of these rows as JSON text. */
  function Sizes(rows: seq<Msg>, size: Msg -> nat): (sizes: seq<nat>)
    ensures |sizes| == |rows|
  {
    seq(|rows|, i requires 0 <= i < |rows| => size(rows[i]))
  }

  // ---- the lower bound of a call -----------------------------------------------------------------

  /** Two's complement wrap-around, as in a release build. */
  function Wrap64(n: int): (r: int)
    ensures IsI64(r) && (IsI64(n) ==> r == n)
  {
    (n - I64_MIN) % 0x1_0000_0000_0000_0000 + I64_MIN
  }

  function Back(count: string, unit: int, now: int): Option<int> {
    var n := ParseI64(count);
    if n.None? then None else Some(Wrap64(now - Wrap64(n.value * unit)))
  }

  /** Days (`7d`) or hours (`24h`) back from `now`, a date of eight digits, or unix seconds. */
  function ParseSince(spec: string, now: int): Option<int> {
    var s := Trim(spec);
    if s != [] && s[|s| - 1] == 'd' then Back(s[..|s| - 1], DAY, now)
    else if s != [] && s[|s| - 1] == 'h' then Back(s[..|s| - 1], 3_600, now)
    else ParseTimeBound(spec, false)
  }

  lemma BackFrom(n: nat, unit: int, now: int)
    requires IsI64(n) && IsI64(n * unit) && IsI64(now - n * unit)
    ensures Back(Print(n), unit, now) == Some(now - n * unit)
  {
    ParseOfPrintInt(n);
    hide Print, ParseI64;
  }

  lemma TextOfSpan(n: nat, unit: char)
    requires unit == 'd' || unit == 'h'
    ensures Trim(Print(n) + [unit]) == Print(n) + [unit]
    ensures (Print(n) + [unit])[..|Print(n)|] == Print(n)
  {
    var digits := Print(n);
    hide Print;
    assert digits[0] in digits && IsDigit(digits[0]);
    TrimKeeps(digits + [unit]);
  }

  /** A number of days or hours reaches so far back from now. */
  lemma RelativeSince(n: nat, now: int)
    requires IsI64(n) && IsI64(now)
    ensures IsI64(n * 86_400) && IsI64(now - n * 86_400) ==> ParseSince(Print(n) + "d", now) == Some(now - n * 86_400)
    ensures IsI64(n * 3_600) && IsI64(now - n * 3_600) ==> ParseSince(Print(n) + "h", now) == Some(now - n * 3_600)
  {
    TextOfSpan(n, 'd');
    TextOfSpan(n, 'h');
    if IsI64(n * 86_400) && IsI64(now - n * 86_400) {
      BackFrom(n, 86_400, now);
    }
    if IsI64(n * 3_600) && IsI64(now - n * 3_600) {
      BackFrom(n, 3_600, now);
    }
    hide Print, Back, Trim;
  }

  /** The cursors of a call, as an agent passes them. */
  datatype Cursors = Cursors(since: Option<string>, offset: nat)

  /** What becomes of a `since`: an error, or the bound that is sent. */
  datatype Bound = Refused | Bound(since: Option<int>)

  function Resolved(c: Cursors, now: int): Bound {
    if c.since.None? then Bound(None)
    else
      var since := ParseSince(c.since.value, now);
      if since.None? then Refused else Bound(since)
  }

  function PrintBound(since: Option<int>): Option<string> {
    if since.None? then None else Some(PrintInt(since.value))
  }

  /** A bound that was handed out is read as a date or a number, whatever the time is by then. */
  lemma PrintedSince(n: int, now: int)
    ensures ParseSince(PrintInt(n), now) == Echo(Some(n))
  {
    var s, digits := PrintInt(n), Print(if n < 0 then -n else n);
    assert digits[0] in digits && digits[|digits| - 1] in digits;
    assert s[|s| - 1] == digits[|digits| - 1];
    TrimKeeps(s);
  }

  // ---- get_messages ------------------------------------------------------------------------------

  datatype Answer = Answer(messages: seq<Msg>, truncated: bool, hasMore: bool, next: Cursors)

  /** One call; none is a tool error. When the page was cut, the caller keeps its lower bound, as
      resolved, and goes on at the first row cut off; otherwise it takes over the page's own cursors. */
  function GetMessages(conv: seq<Msg>, c: Cursors, now: int, limit: Option<nat>, size: Msg -> nat): Option<Answer> {
    var bound, max := Resolved(c, now), ClampLimit(limit);
    if bound.Refused? then None
    else
      var page := Serve(conv, Echo(bound.since), None, now, max, c.offset);
      var kept := Kept(Sizes(page.messages, size), max, CHAR_BUDGET);
      var cut := kept < |page.messages|;
      Some(Answer(page.messages[..kept], cut, page.hasMore || cut,
                  if cut then Cursors(PrintBound(bound.since), c.offset + kept)
                  else Cursors(Some(PrintInt(page.nextSince)), page.nextOffset)))
  }

  /** The rows the cursors of a call select, before paging and cutting. */
  function Rest(conv: seq<Msg>, c: Cursors, now: int): seq<Msg>
    requires Resolved(c, now).Bound?
  {
    Selected(conv, Echo(Resolved(c, now).since), c.offset)
  }

  lemma GetMessagesFacts(conv: seq<Msg>, c: Cursors, now: int, limit: Option<nat>, size: Msg -> nat)
    requires TimesFit(conv) && Resolved(c, now).Bound?
    ensures
      var low := Echo(Resolved(c, now).since);
      var rest, page := Selected(conv, low, c.offset), Serve(conv, low, None, now, ClampLimit(limit), c.offset);
      var kept := Kept(Sizes(page.messages, size), ClampLimit(limit), CHAR_BUDGET);
      && |page.messages| <= |rest| && page.messages[..kept] == rest[..kept]
      && (rest != [] ==> kept > 0) && (page.hasMore <==> |page.messages| < |rest|)
      && (page.hasMore ==> page.messages[|page.messages| - 1].time == page.nextSince)
  {
    hide KeptFrom, Sizes, Serve, Echo, OldestFirst, Resolved;
    var low, max := Echo(Resolved(c, now).since), ClampLimit(limit);
    PageFacts(conv, low, now, max, c.offset);
    var rows, page := OldestFirst(conv, low, None), Serve(conv, low, None, now, max, c.offset);
    SliceOf(rows, Min(c.offset, |rows|), page.messages, Kept(Sizes(page.messages, size), max, CHAR_BUDGET));
  }

  /** Every call that is not refused hands over the next rows, at least one while any are left, and says
      whether there are more. */
  lemma GetMessagesWalks(conv: seq<Msg>, c: Cursors, now: int, limit: Option<nat>, size: Msg -> nat)
    requires TimesFit(conv) && Resolved(c, now).Bound?
    ensures GetMessages(conv, c, now, limit, size).Some?
    ensures
      var rest, answer := Rest(conv, c, now), GetMessages(conv, c, now, limit, size).value;
      var n := |answer.messages|;
      && n <= |rest| && answer.messages == rest[..n]
      && (rest != [] ==> n > 0)
      && (answer.hasMore <==> n < |rest|)
  {
    hide KeptFrom, Sizes, Serve, Echo, Selected, Resolved;
    GetMessagesFacts(conv, c, now, limit, size);
  }

  // ---- going on with the cursors of an answer -----------------------------------------------------

  predicate SelectSame(conv: seq<Msg>, a: Option<int>, b: Option<int>) {
    forall m :: m in conv ==> (InWindow(m, a, None) <==> InWindow(m, b, None))
  }

  /** When the cursors of an answer go on where it stopped. After a cut page the bound handed out must
      select what the bound of the call did; after a whole page it must separate the page from the rows
      that follow, and the page must not end at the first second there is. */
  predicate LeadsOn(conv: seq<Msg>, low: Option<int>, answer: Answer, later: int)
    requires answer.messages != []
  {
    var next, last := Resolved(answer.next, later), answer.messages[|answer.messages| - 1].time;
    && next.Bound?
    && if answer.truncated then SelectSame(conv, low, Echo(next.since))
       else Bridges(conv, last, Echo(next.since)) && (low.None? ==> last != I64_MIN)
  }

  /** What an answer that says there is more is made of. */
  lemma AnswerWithMore(conv: seq<Msg>, c: Cursors, now: int, limit: Option<nat>, size: Msg -> nat)
    requires TimesFit(conv) && Resolved(c, now).Bound?
    requires var reply := GetMessages(conv, c, now, limit, size); reply.Some? && reply.value.hasMore
    ensures
      var low, answer := Echo(Resolved(c, now).since), GetMessages(conv, c, now, limit, size).value;
      var page := Serve(conv, low, None, now, ClampLimit(limit), c.offset);
      && 0 < |answer.messages| < |Rest(conv, c, now)|
      && (answer.truncated ==>
            answer.next == Cursors(PrintBound(Resolved(c, now).since), c.offset + |answer.messages|))
      && (!answer.truncated ==>
            && page.hasMore && answer.messages == page.messages
            && answer.messages[|answer.messages| - 1].time == page.nextSince
            && answer.next == Cursors(Some(PrintInt(page.nextSince)), page.nextOffset))
  {
    hide KeptFrom, Sizes, Serve, Echo, Selected, Resolved, TimesFit;
    GetMessagesFacts(conv, c, now, limit, size);
  }

  /** The cursors of an answer are accepted and select exactly the rows after it if and only if `LeadsOn`. */
  lemma GetMessagesContinuesIff(conv: seq<Msg>, c: Cursors, now: int, limit: Option<nat>, size: Msg -> nat, later: int)
    requires TimesFit(conv) && Resolved(c, now).Bound?
    requires var reply := GetMessages(conv, c, now, limit, size); reply.Some? && reply.value.hasMore
    ensures
      var answer := GetMessages(conv, c, now, limit, size).value;
      && answer.messages != [] && |answer.messages| <= |Rest(conv, c, now)|
      && (Resolved(answer.next, later).Bound? && Rest(conv, answer.next, later) == Rest(conv, c, now)[|answer.messages|..]
          <==> LeadsOn(conv, Echo(Resolved(c, now).since), answer, later))
  {
    hide GetMessages, Serve, Echo, Selected, Resolved, SelectSame, Bridges, TimesFit;
    AnswerWithMore(conv, c, now, limit, size);
    var answer := GetMessages(conv, c, now, limit, size).value;
    if Resolved(answer.next, later).Bound? {
      if answer.truncated {
        CutContinuesIff(conv, Echo(Resolved(c, now).since), Echo(Resolved(answer.next, later).since), c.offset, |answer.messages|);
      } else {
        WholeContinuesIff(conv, Echo(Resolved(c, now).since), now, ClampLimit(limit), c.offset, later);
      }
    }
  }

  lemma WholeContinuesIff(conv: seq<Msg>, low: Option<int>, now: int, max: nat, offset: nat, later: int)
    requires TimesFit(conv) && max > 0 && Serve(conv, low, None, now, max, offset).hasMore
    requires
      var page := Serve(conv, low, None, now, max, offset);
      Resolved(Cursors(Some(PrintInt(page.nextSince)), page.nextOffset), later).Bound?
    ensures
      var page := Serve(conv, low, None, now, max, offset);
      var next := Echo(Resolved(Cursors(Some(PrintInt(page.nextSince)), page.nextOffset), later).since);
      Selected(conv, next, page.nextOffset) == Selected(conv, low, offset)[|page.messages|..]
      <==> Bridges(conv, page.nextSince, next) && (low.None? ==> page.nextSince != I64_MIN)
  {
    hide Serve, Echo, Selected, ParseSince, Bridges;
    var page := Serve(conv, low, None, now, max, offset);
    PrintedSince(page.nextSince, later);
    FirstSecondEchoes();
    NextContinuesIff(conv, low, now, max, offset, Echo(Echo(Some(page.nextSince))));
  }

  predicate NotAbove(a: Option<int>, b: Option<int>) {
    a.None? || (b.Some? && a.value <= b.value)
  }

  lemma {:induction false} HigherSelectsFewer(conv: seq<Msg>, a: Option<int>, b: Option<int>)
    requires NotAbove(a, b)
    ensures |Window(conv, b, None)| <= |Window(conv, a, None)|
    ensures |Window(conv, b, None)| == |Window(conv, a, None)| <==> SelectSame(conv, a, b)
    ensures SelectSame(conv, a, b) ==> Window(conv, a, None) == Window(conv, b, None)
  {
    if conv != [] {
      var init, last := conv[..|conv| - 1], conv[|conv| - 1];
      HigherSelectsFewer(init, a, b);
      assert last in conv && conv == init + [last];
    }
  }

  lemma SameBehind(rows: seq<Msg>, others: seq<Msg>, k: nat)
    requires k < |rows| && others[Min(k, |others|)..] == rows[k..]
    ensures |others| == |rows|
  {
  }

  lemma SelectSameIff(conv: seq<Msg>, low: Option<int>, next: Option<int>)
    ensures |OldestFirst(conv, low, None)| == |OldestFirst(conv, next, None)| ==> SelectSame(conv, low, next)
    ensures SelectSame(conv, low, next) ==> OldestFirst(conv, low, None) == OldestFirst(conv, next, None)
  {
    var rows, others := OldestFirst(conv, low, None), OldestFirst(conv, next, None);
    OldestFirstSorts(conv, low, None);
    OldestFirstSorts(conv, next, None);
    assert |rows| == |multiset(rows)| && |others| == |multiset(others)|;
    hide StableSort, IsSorted, Window;
    if NotAbove(low, next) {
      HigherSelectsFewer(conv, low, next);
    } else {
      HigherSelectsFewer(conv, next, low);
    }
  }

  /** Behind the same offset two bounds select the same rows if and only if they do from the start. */
  lemma CutContinuesIff(conv: seq<Msg>, low: Option<int>, next: Option<int>, offset: nat, kept: nat)
    requires kept < |Selected(conv, low, offset)|
    ensures Selected(conv, next, offset + kept) == Selected(conv, low, offset)[kept..] <==> SelectSame(conv, low, next)
  {
    hide OldestFirst, SelectSame;
    var rows, others := OldestFirst(conv, low, None), OldestFirst(conv, next, None);
    SelectSameIff(conv, low, next);
    assert Selected(conv, low, offset)[kept..] == rows[offset + kept..];
    if others[Min(offset + kept, |others|)..] == rows[offset + kept..] {
      SameBehind(rows, others, offset + kept);
    }
  }

  /** Rows at 20 000 000 and the second after, one a call: the cursor handed out is no date, and the next
      call is refused. */
  lemma NextCallIsRefused(first: Msg, second: Msg, now: int, later: int, size: Msg -> nat)
    requires first.time == 20_000_000 && second.time == 20_000_001
    ensures
      var reply := GetMessages([first, second], Cursors(None, 0), now, Some(1), size);
      && reply.Some? && reply.value.messages == [first] && reply.value.hasMore
      && GetMessages([first, second], reply.value.next, later, Some(1), size) == None
  {
    hide Serve, Echo, GetMessages, PrintInt, ParseSince;
    TwoRowsNeverDrained(first, second, now);
    FirstCall([first, second], now, size);
    var page := Serve([first, second], None, None, now, 1, 0);
    PageFacts([first, second], None, now, 1, 0);
    NoCursorNoDate(first.time, later);
    RefusedCall([first, second], Cursors(Some(PrintInt(first.time)), page.nextOffset), later, Some(1), size);
  }

  /** An unbounded call for one row whose page is one row. */
  lemma FirstCall(conv: seq<Msg>, now: int, size: Msg -> nat)
    requires |Serve(conv, None, None, now, 1, 0).messages| == 1
    ensures
      var page := Serve(conv, None, None, now, 1, 0);
      GetMessages(conv, Cursors(None, 0), now, Some(1), size)
      == Some(Answer(page.messages, false, page.hasMore, Cursors(Some(PrintInt(page.nextSince)), page.nextOffset)))
  {
    hide Serve, PrintInt, ParseSince, Kept, Sizes;
    var page := Serve(conv, None, None, now, 1, 0);
    KeptOfOne(Sizes(page.messages, size), 1);
    assert page.messages[..1] == page.messages;
  }

  lemma RefusedCall(conv: seq<Msg>, c: Cursors, now: int, limit: Option<nat>, size: Msg -> nat)
    requires c.since.Some? && ParseSince(c.since.value, now) == None
    ensures GetMessages(conv, c, now, limit, size) == None
  {
    hide Serve, ParseSince, KeptFrom;
  }

  lemma NoCursorNoDate(n: int, later: int)
    requires LooksLikeDate(n) && n % 10_000 < 100
    ensures ParseSince(PrintInt(n), later) == None
  {
    hide PrintInt, ParseSince, ParseTimeBound;
    NoMonthZero(n);
    PrintedSince(n, later);
  }

  /** A walk: call after call with any limits at any times, each with the cursors of the one before,
      until a call says that there is no more or is refused. */
  datatype Call = Call(now: int, limit: Option<nat>)

  function Walk(conv: seq<Msg>, c: Cursors, calls: seq<Call>, size: Msg -> nat): seq<Msg>
    decreases |calls|
  {
    if calls == [] then []
    else
      var reply := GetMessages(conv, c, calls[0].now, calls[0].limit, size);
      if reply.None? then []
      else if reply.value.hasMore then reply.value.messages + Walk(conv, reply.value.next, calls[1..], size)
      else reply.value.messages
  }

  /** The first call is accepted, and the cursors of each answer that a call follows lead on. */
  predicate WalkLeadsOn(conv: seq<Msg>, c: Cursors, calls: seq<Call>, size: Msg -> nat)
    decreases |calls|
  {
    calls == [] ||
    (var reply := GetMessages(conv, c, calls[0].now, calls[0].limit, size);
     && reply.Some?
     && (reply.value.hasMore && |calls| > 1 ==>
           && reply.value.messages != []
           && LeadsOn(conv, Echo(Resolved(c, calls[0].now).since), reply.value, calls[1].now)
           && WalkLeadsOn(conv, reply.value.next, calls[1..], size)))
  }

  /** Following the cursors visits the selected rows once each and in order, at least one more with
      every call, until all have been visited. */
  lemma {:induction false} WalkVisitsEveryRowOnce(conv: seq<Msg>, c: Cursors, calls: seq<Call>, size: Msg -> nat)
    requires TimesFit(conv) && calls != [] && WalkLeadsOn(conv, c, calls, size)
    ensures Resolved(c, calls[0].now).Bound?
    ensures
      var rest, walked := Rest(conv, c, calls[0].now), Walk(conv, c, calls, size);
      && walked <= rest
      && |walked| >= Min(|calls|, |rest|)
    decreases |calls|
  {
    assert Resolved(c, calls[0].now).Bound?;
    hide Rest, GetMessages, LeadsOn, Resolved, TimesFit, Echo, Selected, Min, Walk;
    var rest, answer := Rest(conv, c, calls[0].now), GetMessages(conv, c, calls[0].now, calls[0].limit, size).value;
    GetMessagesWalks(conv, c, calls[0].now, calls[0].limit, size);
    WalkOnce(conv, c, calls, size);
    if answer.hasMore {
      if |calls| > 1 {
        GetMessagesContinuesIff(conv, c, calls[0].now, calls[0].limit, size, calls[1].now);
        WalkVisitsEveryRowOnce(conv, answer.next, calls[1..], size);
      }
      WalkedFurther(rest, |answer.messages|, Walk(conv, answer.next, calls[1..], size), |calls|);
    } else {
      WalkedAll(rest, |answer.messages|, |calls|);
    }
  }

  lemma WalkOnce(conv: seq<Msg>, c: Cursors, calls: seq<Call>, size: Msg -> nat)
    requires calls != [] && GetMessages(conv, c, calls[0].now, calls[0].limit, size).Some?
    ensures
      var answer := GetMessages(conv, c, calls[0].now, calls[0].limit, size).value;
      Walk(conv, c, calls, size)
      == if answer.hasMore then answer.messages + Walk(conv, answer.next, calls[1..], size) else answer.messages
    ensures |calls| == 1 ==> Walk(conv, GetMessages(conv, c, calls[0].now, calls[0].limit, size).value.next, calls[1..], size) == []
  {
    hide GetMessages;
  }

  lemma WalkedFurther(rest: seq<Msg>, n: nat, more: seq<Msg>, calls: nat)
    requires 0 < n <= |rest| && calls > 0 && more <= rest[n..] && |more| >= Min(calls - 1, |rest| - n)
    ensures rest[..n] + more <= rest && |rest[..n] + more| >= Min(calls, |rest|)
  {
    assert rest == rest[..n] + rest[n..];
  }

  lemma WalkedAll(rest: seq<Msg>, n: nat, calls: nat)
    requires n == |rest|
    ensures rest[..n] <= rest && n >= Min(calls, |rest|)
  {
  }

  /** A bound that survives being printed and read. */
  predicate CursorFits(c: Cursors, now: int) {
    var bound := Resolved(c, now);
    bound.Bound? && (bound.since.Some? ==> IsI64(bound.since.value) && !LooksLikeDate(bound.since.value))
  }

  lemma PrintedFits(n: int, offset: nat, now: int)
    requires IsI64(n) && !LooksLikeDate(n)
    ensures Echo(Some(n)) == Some(n) && Resolved(Cursors(Some(PrintInt(n)), offset), now) == Bound(Some(n))
  {
    PrintedSince(n, now);
    EchoIff(n);
  }

  /** With times and bounds that are not of eight digits every answer leads on. */
  lemma OrdinaryAnswersLeadOn(conv: seq<Msg>, c: Cursors, now: int, limit: Option<nat>, size: Msg -> nat, later: int)
    requires (forall m :: m in conv ==> RowOk(m)) && CursorFits(c, now)
    requires var reply := GetMessages(conv, c, now, limit, size); reply.Some? && reply.value.hasMore
    ensures
      var answer := GetMessages(conv, c, now, limit, size).value;
      answer.messages != [] && LeadsOn(conv, Echo(Resolved(c, now).since), answer, later) && CursorFits(answer.next, later)
  {
    hide KeptFrom, Sizes, Serve, Echo, Selected, Resolved, PrintInt;
    assert TimesFit(conv);
    GetMessagesFacts(conv, c, now, limit, size);
    var answer, since, max := GetMessages(conv, c, now, limit, size).value, Resolved(c, now).since, ClampLimit(limit);
    if answer.truncated {
      if since.Some? {
        PrintedFits(since.value, answer.next.offset, later);
      } else {
        NoBound(answer.next, later);
      }
    } else {
      PageFacts(conv, Echo(since), now, max, c.offset);
      PrintedFits(Serve(conv, Echo(since), None, now, max, c.offset).nextSince, answer.next.offset, later);
    }
  }

  lemma NoBound(c: Cursors, now: int)
    requires c.since.None?
    ensures Resolved(c, now) == Bound(None)
  {
  }

  lemma {:induction false} OrdinaryWalksLeadOn(conv: seq<Msg>, c: Cursors, calls: seq<Call>, size: Msg -> nat)
    requires (forall m :: m in conv ==> RowOk(m)) && (calls != [] ==> CursorFits(c, calls[0].now))
    ensures WalkLeadsOn(conv, c, calls, size)
    decreases |calls|
  {
    if calls != [] {
      assert Resolved(c, calls[0].now).Bound?;
      hide RowOk, LeadsOn, CursorFits, Resolved, Serve, Echo;
      var reply := GetMessages(conv, c, calls[0].now, calls[0].limit, size);
      if reply.value.hasMore && |calls| > 1 {
        OrdinaryAnswersLeadOn(conv, c, calls[0].now, calls[0].limit, size, calls[1].now);
        OrdinaryWalksLeadOn(conv, reply.value.next, calls[1..], size);
      }
    }
  }

  // ---- get_messages_raw ----------------------------------------------------------------------------

  /** The native face pages by offset through one list, and so does the cut page. */
  function GetMessagesRaw(conv: seq<Msg>, q: Query, limit: Option<nat>, size: Msg -> nat): Answer {
    var max := ClampLimit(limit);
    var page := PageSlice(conv, q.(limit := max));
    var kept := Kept(Sizes(page.messages, size), max, CHAR_BUDGET);
    Answer(page.messages[..kept], kept < |page.messages|, page.hasMore || kept < |page.messages|,
           Cursors(None, q.offset + kept))
  }

  lemma GetMessagesRawWalks(conv: seq<Msg>, q: Query, limit: Option<nat>, size: Msg -> nat)
    ensures
      var rows := NewestFirst(conv, q);
      var rest, answer := rows[Min(q.offset, |rows|)..], GetMessagesRaw(conv, q, limit, size);
      var n := |answer.messages|;
      && n <= |rest| && answer.messages == rest[..n]
      && (rest != [] ==> n > 0)
      && (answer.hasMore <==> n < |rest|)
      && (answer.truncated <==> n < Min(|rest|, ClampLimit(limit)))
      && (answer.hasMore ==> rows[Min(answer.next.offset, |rows|)..] == rest[n..])
  {
    hide NewestFirst, KeptFrom, Sizes, PageSlice;
    var rows, max := NewestFirst(conv, q), ClampLimit(limit);
    var start := Min(q.offset, |rows|);
    var slice := PageSlice(conv, q.(limit := max));
    PageSliceFacts(conv, q, max);
    SliceMeans(conv, q.(limit := max));
    NewestFirstIgnoresPage(conv, q, q.(limit := max));
    SliceOf(rows, start, slice.messages, Kept(Sizes(slice.messages, size), max, CHAR_BUDGET));
  }

  lemma PageSliceFacts(conv: seq<Msg>, q: Query, limit: nat)
    requires limit > 0
    ensures
      var rows, slice := NewestFirst(conv, q), PageSlice(conv, q.(limit := limit));
      var start, n := Min(q.offset, |rows|), |slice.messages|;
      && start + n <= |rows| && slice.messages == rows[start..start + n]
      && (start < |rows| ==> n > 0)
      && (slice.hasMore <==> start + n < |rows|)
  {
    NewestFirstIgnoresPage(conv, q, q.(limit := limit));
    hide NewestFirst;
  }

  lemma SliceOf(rows: seq<Msg>, start: nat, page: seq<Msg>, kept: nat)
    requires start + |page| <= |rows| && page == rows[start..start + |page|] && kept <= |page|
    ensures page[..kept] == rows[start..][..kept] && rows[start + kept..] == rows[start..][kept..]
  {
  }

  function WalkRaw(conv: seq<Msg>, q: Query, limits: seq<Option<nat>>, size: Msg -> nat): seq<Msg>
    decreases |limits|
  {
    if limits == [] then []
    else
      var answer := GetMessagesRaw(conv, q, limits[0], size);
      if answer.hasMore then answer.messages + WalkRaw(conv, q.(offset := answer.next.offset), limits[1..], size)
      else answer.messages
  }

  /** Following `nextOffset` visits the matching rows, newest first, once each, at least one more with
      every call, until all have been visited. */
  lemma {:induction false} RawWalkVisitsEveryRowOnce(conv: seq<Msg>, q: Query, limits: seq<Option<nat>>, size: Msg -> nat)
    ensures
      var rows := NewestFirst(conv, q);
      var rest, walked := rows[Min(q.offset, |rows|)..], WalkRaw(conv, q, limits, size);
      && walked <= rest
      && |walked| >= Min(|limits|, |rest|)
    decreases |limits|
  {
    hide NewestFirst, GetMessagesRaw;
    if limits != [] {
      var answer := GetMessagesRaw(conv, q, limits[0], size);
      GetMessagesRawWalks(conv, q, limits[0], size);
      if answer.hasMore {
        var rest := NewestFirst(conv, q)[Min(q.offset, |NewestFirst(conv, q)|)..];
        NewestFirstIgnoresPage(conv, q, q.(offset := answer.next.offset));
        RawWalkVisitsEveryRowOnce(conv, q.(offset := answer.next.offset), limits[1..], size);
        assert rest == answer.messages + rest[|answer.messages|..];
      }
    }
  }

  // ---- search_messages -----------------------------------------------------------------------------

  function Reversed(rows: seq<Msg>): seq<Msg> {
    seq(|rows|, i requires 0 <= i < |rows| => rows[|rows| - 1 - i])
  }

  /** The ChatLab face turns its slice round before the cut, and the offset still counts from the new end. */
  function SearchMessages(conv: seq<Msg>, q: Query, limit: Option<nat>, size: Msg -> nat): Answer {
    var max := ClampLimit(limit);
    var page := PageSlice(conv, q.(limit := max));
    var turned := Reversed(page.messages);
    var kept := Kept(Sizes(turned, size), max, CHAR_BUDGET);
    Answer(turned[..kept], kept < |turned|, page.hasMore || kept < |turned|, Cursors(None, q.offset + kept))
  }

  predicate Distinct(rows: seq<Msg>) {
    forall i, j :: 0 <= i < j < |rows| ==> rows[i] != rows[j]
  }

  lemma ReversedSame(rows: seq<Msg>)
    ensures multiset(Reversed(rows)) == multiset(rows)
    decreases |rows|
  {
    if rows != [] {
      var init, last := rows[..|rows| - 1], rows[|rows| - 1];
      ReversedSame(init);
      assert Reversed(rows) == [last] + Reversed(init);
      assert rows == init + [last];
    }
  }

  /** A search answer together with what its cursor leads on to is what there was to visit, exactly when
      the page was not cut: a cut page's cursor points past rows that were never given and back at rows
      that were. */
  lemma SearchContinuesIff(conv: seq<Msg>, q: Query, limit: Option<nat>, size: Msg -> nat)
    requires Distinct(NewestFirst(conv, q)) && q.offset <= |NewestFirst(conv, q)|
    ensures
      var rows, answer := NewestFirst(conv, q), SearchMessages(conv, q, limit, size);
      var page := PageSlice(conv, q.(limit := ClampLimit(limit))).messages;
      && answer.next.offset <= |rows|
      && (multiset(answer.messages) + multiset(rows[answer.next.offset..]) == multiset(rows[q.offset..])
          <==> |answer.messages| == |page|)
      && (answer.truncated <==> |answer.messages| < |page|)
      && (answer.hasMore <==> q.offset + |answer.messages| < |rows|)
  {
    hide NewestFirst, SearchMessages, PageSlice, Reversed, Distinct, Kept;
    SearchIsTurnedCut(conv, q, limit, size);
    var page := PageSlice(conv, q.(limit := ClampLimit(limit))).messages;
    TurnedCutIff(NewestFirst(conv, q), q.offset, page, |SearchMessages(conv, q, limit, size).messages|);
  }

  lemma SearchIsTurnedCut(conv: seq<Msg>, q: Query, limit: Option<nat>, size: Msg -> nat)
    requires q.offset <= |NewestFirst(conv, q)|
    ensures
      var rows, answer := NewestFirst(conv, q), SearchMessages(conv, q, limit, size);
      var page, kept := PageSlice(conv, q.(limit := ClampLimit(limit))).messages, |answer.messages|;
      && q.offset + |page| <= |rows| && page == rows[q.offset..q.offset + |page|]
      && kept <= |page| && (page != [] ==> kept > 0)
      && answer.messages == Reversed(page)[..kept] && answer.next.offset == q.offset + kept
      && (answer.truncated <==> kept < |page|) && (answer.hasMore <==> q.offset + kept < |rows|)
  {
    hide NewestFirst, KeptFrom, PageSlice;
    PageSliceFacts(conv, q, ClampLimit(limit));
  }

  lemma TurnedWhole(rows: seq<Msg>, offset: nat, page: seq<Msg>)
    requires offset + |page| <= |rows| && page == rows[offset..offset + |page|]
    ensures multiset(Reversed(page)) + multiset(rows[offset + |page|..]) == multiset(rows[offset..])
  {
    assert rows[offset..] == page + rows[offset + |page|..];
    ReversedSame(page);
  }

  lemma SplitAt(rows: seq<Msg>, a: nat, b: nat)
    requires a <= b <= |rows|
    ensures multiset(rows[a..]) == multiset(rows[a..b]) + multiset(rows[b..])
  {
    assert rows[a..] == rows[a..b] + rows[b..];
  }

  lemma FirstOfCut(page: seq<Msg>, kept: nat)
    requires 0 < kept <= |page|
    ensures multiset(Reversed(page)[..kept])[page[|page| - 1]] > 0
  {
    assert Reversed(page)[..kept][0] == page[|page| - 1];
  }

  /** The last row of a cut page was given, and lies beyond the cursor as well. */
  lemma TurnedCut(rows: seq<Msg>, offset: nat, page: seq<Msg>, kept: nat)
    requires Distinct(rows) && offset + |page| <= |rows| && page == rows[offset..offset + |page|]
    requires 0 < kept < |page|
    ensures multiset(Reversed(page)[..kept]) + multiset(rows[offset + kept..]) != multiset(rows[offset..])
  {
    assert |Reversed(page)| == |page|;
    hide Reversed, Distinct;
    var next, m := offset + kept, page[|page| - 1];
    assert m == rows[offset + |page| - 1];
    SplitAt(rows, offset, next);
    FirstOfCut(page, kept);
    NotAmong(rows, offset, next, offset + |page| - 1);
    SumsDiffer(multiset(Reversed(page)[..kept]), multiset(rows[offset..next]), multiset(rows[next..]), m);
  }

  lemma TurnedCutIff(rows: seq<Msg>, offset: nat, page: seq<Msg>, kept: nat)
    requires Distinct(rows) && offset + |page| <= |rows| && page == rows[offset..offset + |page|]
    requires kept <= |page| && (page != [] ==> kept > 0)
    ensures multiset(Reversed(page)[..kept]) + multiset(rows[offset + kept..]) == multiset(rows[offset..])
       <==> kept == |page|
  {
    hide Distinct;
    if kept == |page| {
      TurnedWhole(rows, offset, page);
      assert Reversed(page)[..kept] == Reversed(page);
    } else {
      hide Reversed;
      TurnedCut(rows, offset, page, kept);
    }
  }

  lemma SumsDiffer(a: multiset<Msg>, b: multiset<Msg>, c: multiset<Msg>, m: Msg)
    requires a[m] != b[m]
    ensures a + c != b + c
  {
    assert (a + c)[m] != (b + c)[m];
  }

  lemma NotAmong(rows: seq<Msg>, a: nat, b: nat, i: nat)
    requires Distinct(rows) && a <= b <= i < |rows|
    ensures multiset(rows[a..b])[rows[i]] == 0
  {
    assert rows[i] !in rows[a..b];
  }

  /** Two rows too large to be given together: every call gives the older one, the newer is never reached. */
  lemma CutSearchNeverReachesTheNewest(older: Msg, newer: Msg, q: Query, size: Msg -> nat)
    requires older.time < newer.time && Matches(older, q) && Matches(newer, q)
    requires size(older) == size(newer) == 40_000
    ensures
      var conv := [older, newer];
      var first := SearchMessages(conv, q.(offset := 0), Some(2), size);
      var second := SearchMessages(conv, q.(offset := first.next.offset), Some(2), size);
      && first.messages == [older] && first.hasMore
      && second.messages == [older] && !second.hasMore
  {
    var conv := [older, newer];
    NewestOfTwo(older, newer, q.(offset := 0, limit := 2));
    NewestOfTwo(older, newer, q.(offset := 1, limit := 2));
    KeptOfTwo(Sizes([older, newer], size));
    KeptOfOne(Sizes([older], size), 2);
    hide NewestFirst, Kept, Sizes, Reversed;
    SliceOfTwo(older, newer, conv, q.(offset := 0, limit := 2));
    SliceOfTwo(older, newer, conv, q.(offset := 1, limit := 2));
    assert Reversed([newer, older]) == [older, newer] && Reversed([older]) == [older] by {
      ReversedOfTwo(older, newer);
    }
    assert [older, newer][..1] == [older] && [older][..1] == [older];
  }

  lemma ReversedOfTwo(older: Msg, newer: Msg)
    ensures Reversed([newer, older]) == [older, newer] && Reversed([older]) == [older]
  {
  }

  lemma SliceOfTwo(older: Msg, newer: Msg, conv: seq<Msg>, q: Query)
    requires NewestFirst(conv, q) == [newer, older] && q.limit == 2 && q.offset <= 1
    ensures PageSlice(conv, q) == Slice(if q.offset == 0 then [newer, older] else [older], false, 2)
  {
    hide NewestFirst;
    assert [newer, older][0..2] == [newer, older] && [newer, older][1..2] == [older];
  }

  lemma KeptOfTwo(sizes: seq<nat>)
    requires |sizes| == 2 && sizes[0] + sizes[1] > CHAR_BUDGET
    ensures Kept(sizes, 2, CHAR_BUDGET) == 1
  {
    assert sizes[..2][..1] == sizes[..1] && sizes[..1][..0] == [];
    assert Sum(sizes[..1]) == sizes[0];
    assert Sum(sizes[..2]) == sizes[0] + sizes[1];
    assert KeptFrom(sizes, 0, 2, CHAR_BUDGET) == KeptFrom(sizes, 1, 2, CHAR_BUDGET) == 1;
  }

  lemma KeptOfOne(sizes: seq<nat>, maxItems: nat)
    requires |sizes| == 1 && maxItems > 0
    ensures Kept(sizes, maxItems, CHAR_BUDGET) == 1
  {
    assert KeptFrom(sizes, 0, maxItems, CHAR_BUDGET) == KeptFrom(sizes, 1, maxItems, CHAR_BUDGET) == 1;
  }

  lemma NewestOfTwo(older: Msg, newer: Msg, q: Query)
    requires older.time < newer.time && Matches(older, q) && Matches(newer, q)
    ensures NewestFirst([older, newer], q) == [newer, older]
  {
    assert [older, newer][..1] == [older] && [older][..0] == [];
    assert Matching([older], q) == [older];
    assert Matching([older, newer], q) == [older, newer];
    assert StableSort([older], KeyGe) == Insert(StableSort([], KeyGe), older, KeyGe) == [older];
    assert !KeyGe(older, newer) && [older][..0] == [];
    assert Insert([older], newer, KeyGe) == Insert([], newer, KeyGe) + [older] == [newer, older];
  }
}
