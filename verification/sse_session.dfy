/** The event stream end to end: publisher, replay buffer, connection (`sse_from` in
    `src/server/handlers/push_events.rs`) and reconnecting client (`watch` in `clients/rust/src/client.rs`).

    The broadcast channel is a position in all that was ever sent: a receiver more than `CAPACITY`
    behind loses the oldest events and is told so. What the server writes reaches the client as any
    prefix, in any chunks, and a connection may be cut after any character. */
module SseSessions {
  import opened Wrappers
  import opened History
  import opened Decimals
  import opened SseText

  const CAPACITY: nat := 1024

  /** A bus event as one face serializes it. */
  datatype Wire = Wire(name: string, data: string)

  /** A connection: the cursor it was opened with, the position from which on it owes the client every
      event, the receiver's position, all the frames produced so far, how many characters of them the
      client has read, and the client's state when it began. */
  datatype Conn = Conn(since: nat, from: nat, pos: nat, frames: seq<Frame>, read: nat, start: Reader)

  datatype Net = Net(buffer: Buffer<Wire>, sent: seq<Wire>, clock: nat, conn: Option<Conn>, reader: Reader)

  datatype Action =
    | Publish(wire: Wire, now: nat)
    | ClearHistory
    | Connect(now: nat, sync: string)
    | Serve(sync: string)
    | KeepAlive
    | Receive(n: nat)
    | Cut

  const START := Net(Buffer([], 0), [], 0, None, Reader("", Cursor(None, None), []))

  const READY := Frame.Frame(None, "ready", "{\"status\":\"ok\"}")

  function SyncFrame(data: string): Frame {
    Frame.Frame(None, "sync", data)
  }

  function EventFrame(e: Stamped<Wire>): Frame {
    Frame.Frame(Some(e.id), e.event.name, e.event.data)
  }

  function EventFrames(events: seq<Stamped<Wire>>): seq<Frame> {
    seq(|events|, i requires 0 <= i < |events| => EventFrame(events[i]))
  }

  /** The `Last-Event-ID` header travels as decimal text; without one the server starts from zero. */
  function HeaderSince(last: Option<nat>): nat {
    if last.None? then 0
    else
      var parsed := ParseU64(Print(last.value));
      if parsed.Some? then parsed.value else 0
  }

  predicate Enabled(s: Net, a: Action) {
    match a
    case Publish(wire, now) => s.clock <= now && OneLine(wire.name) && OneLine(wire.data) && |s.sent| < U64_MAX
    case ClearHistory => true
    case Connect(now, sync) => s.conn.None? && s.clock <= now && OneLine(sync)
    case Serve(sync) => s.conn.Some? && s.conn.value.pos < |s.sent| && OneLine(sync)
    case KeepAlive => s.conn.Some?
    case Receive(n) => s.conn.Some? && s.conn.value.read + n <= |Render(s.conn.value.frames)|
    case Cut => s.conn.Some?
  }

  /** One step of the live loop: the next event, or the notice that the receiver fell behind. */
  function Served(c: Conn, sent: seq<Wire>, sync: string): Conn
    requires c.pos < |sent|
  {
    if |sent| - c.pos > CAPACITY then c.(pos := |sent| - CAPACITY, frames := c.frames + [SyncFrame(sync)])
    else c.(pos := c.pos + 1, frames := c.frames + [EventFrame(Stamped(c.pos + 1, sent[c.pos]))])
  }

  /** A client with a cursor is owed everything after it; one without a cursor joins where the replay
      begins. */
  function Opened(s: Net, now: nat, sync: string): Conn {
    var since := HeaderSince(s.reader.cursor.last);
    var replay := ReplaySince(s.buffer.items, since, now);
    var from := if s.reader.cursor.last.None? && |replay| <= |s.sent| then |s.sent| - |replay| else since;
    Conn(since, from, |s.sent|, [READY] + EventFrames(replay) + [SyncFrame(sync)], 0, BeginConnection(s.reader))
  }

  function BeginConnection(r: Reader): Reader {
    Reader("", Cursor(None, r.cursor.last), r.handed)
  }

  function Do(s: Net, a: Action): Net
    requires Enabled(s, a)
  {
    match a
    case Publish(wire, now) => s.(buffer := Append(s.buffer, wire, now), sent := s.sent + [wire], clock := now)
    case ClearHistory => s.(buffer := Clear(s.buffer))
    case Connect(now, sync) =>
      var conn := Opened(s, now, sync);
      s.(conn := Some(conn), clock := now, reader := conn.start)
    case Serve(sync) => s.(conn := Some(Served(s.conn.value, s.sent, sync)))
    case KeepAlive => s.(conn := Some(s.conn.value.(frames := s.conn.value.frames + [Ping])))
    case Receive(n) =>
      var c := s.conn.value;
      s.(conn := Some(c.(read := c.read + n)), reader := Scan(s.reader, Render(c.frames)[c.read..c.read + n]))
    case Cut => s.(conn := None)
  }

  predicate Run(states: seq<Net>, actions: seq<Action>) {
    && |states| == |actions| + 1 && states[0] == START
    && forall i :: 0 <= i < |actions| ==> Enabled(states[i], actions[i]) && states[i + 1] == Do(states[i], actions[i])
  }

  // ---- the events among what was handed out ------------------------------------------------

  /** What came with an id, that is, the bus events: the first frame, the baselines and the lag notices
      carry none. */
  function Events(handed: seq<Yield>): seq<Yield> {
    if handed == [] then []
    else
      var rest, last := Events(handed[..|handed| - 1]), handed[|handed| - 1];
      if last.id.Some? then rest + [last] else rest
  }

  function EventsOf(frames: seq<Frame>): seq<Yield> {
    if frames == [] then []
    else
      var rest, last := EventsOf(frames[..|frames| - 1]), frames[|frames| - 1];
      if last.Frame? && last.id.Some? then rest + [Yield(last.id, last.data)] else rest
  }

  function IdOf(y: Yield): nat {
    if y.id.Some? then y.id.value else 0
  }

  function LastId(events: seq<Yield>, since: nat): nat {
    if events == [] then since else IdOf(events[|events| - 1])
  }

  /** Each is an event that was sent, under its own id, and the ids rise strictly above `since`. */
  predicate Faithful(events: seq<Yield>, since: nat, sent: seq<Wire>) {
    && (forall i :: 0 <= i < |events| ==> events[i].id.Some? && since < IdOf(events[i]) <= |sent|)
    && (forall i :: 0 <= i < |events| ==> 0 < IdOf(events[i]) <= |sent| && events[i].data == sent[IdOf(events[i]) - 1].data)
    && (forall i, j :: 0 <= i < j < |events| ==> IdOf(events[i]) < IdOf(events[j]))
  }

  /** None is left out. */
  predicate Gapless(events: seq<Yield>, since: nat) {
    forall i :: 0 <= i < |events| ==> IdOf(events[i]) == since + 1 + i
  }

  lemma {:induction false} EventsOfConcat(a: seq<Frame>, b: seq<Frame>)
    ensures EventsOf(a + b) == EventsOf(a) + EventsOf(b)
  {
    if b == [] {
      assert a + b == a;
    } else {
      EventsOfConcat(a, b[..|b| - 1]);
      assert (a + b)[..|a + b| - 1] == a + b[..|b| - 1];
    }
  }

  lemma EventsOfMore(frames: seq<Frame>, f: Frame)
    ensures EventsOf(frames + [f])
         == if f.Frame? && f.id.Some? then EventsOf(frames) + [Yield(f.id, f.data)] else EventsOf(frames)
  {
    assert (frames + [f])[..|frames|] == frames;
  }

  /** Taking frames hands out their events, and the cursor ends at the last of them. */
  lemma {:induction false} TakeAllEvents(r: Reader, frames: seq<Frame>)
    ensures
      var t, events := TakeAll(r, frames), EventsOf(frames);
      && Events(t.handed) == Events(r.handed) + events
      && t.cursor.last == if events == [] then r.cursor.last else events[|events| - 1].id
  {
    if frames != [] {
      var init, f := frames[..|frames| - 1], frames[|frames| - 1];
      TakeAllEvents(r, init);
      var t := TakeAll(r, init);
      if f.Frame? {
        assert (t.handed + [Yield(f.id, f.data)])[..|t.handed|] == t.handed;
      }
    }
  }

  /** The first events of a connection are the events of its first frames. */
  lemma {:induction false} EventsOfPrefix(frames: seq<Frame>, j: nat)
    requires j <= |frames|
    ensures EventsOf(frames[..j]) <= EventsOf(frames)
    decreases |frames|
  {
    if j < |frames| {
      EventsOfPrefix(frames[..|frames| - 1], j);
      assert frames[..|frames| - 1][..j] == frames[..j];
    } else {
      assert frames[..j] == frames;
    }
  }

  // ---- what every state keeps ------------------------------------------------------------------

  predicate IsSent(item: Item<Wire>, sent: seq<Wire>) {
    0 < item.id <= |sent| && item.event == sent[item.id - 1]
  }

  ghost predicate BusOk(s: Net) {
    && BufferOk(s.buffer, s.clock)
    && s.buffer.lastId == |s.sent| <= U64_MAX
    && (forall i :: 0 <= i < |s.buffer.items| ==> IsSent(s.buffer.items[i], s.sent))
    && (forall i :: 0 <= i < |s.sent| ==> OneLine(s.sent[i].name) && OneLine(s.sent[i].data))
  }

  /** What the client keeps: faithful events, and the cursor at the last of them. */
  predicate ReaderOk(r: Reader, sent: seq<Wire>) {
    var events := Events(r.handed);
    && Faithful(events, 0, sent)
    && r.cursor.last == if events == [] then None else events[|events| - 1].id
  }

  predicate ConnOk(c: Conn, sent: seq<Wire>) {
    && c.since <= c.pos <= |sent|
    && FramesOk(c.frames)
    && Faithful(EventsOf(c.frames), c.since, sent)
    && LastId(EventsOf(c.frames), c.since) <= c.pos
    && AtFrame(c.start) && ReaderOk(c.start, sent)
    && c.since == LastId(Events(c.start.handed), 0)
    && (Events(c.start.handed) != [] ==> c.from == c.since)
    && c.read <= |Render(c.frames)|
  }

  ghost predicate Inv(s: Net) {
    && BusOk(s)
    && ReaderOk(s.reader, s.sent)
    && (s.conn.Some? ==>
          && ConnOk(s.conn.value, s.sent)
          && s.reader == Scan(s.conn.value.start, Render(s.conn.value.frames)[..s.conn.value.read]))
  }

  // ---- what a replay gives ------------------------------------------------------------------------

  /** The events from position `a` up to position `b` of the bus, as a client should see them. */
  function Span(sent: seq<Wire>, a: nat, b: nat): seq<Yield>
    requires a <= b <= |sent|
  {
    seq(b - a, i requires 0 <= i < b - a => Yield(Some(a + i + 1), sent[a + i].data))
  }

  /** The first event the client misses is still buffered and young enough; or it misses none. */
  predicate Covered(s: Net, since: nat, now: nat) {
    var dropped := |s.sent| - |s.buffer.items|;
    since == |s.sent| || (dropped <= since < |s.sent| && now < s.buffer.items[since - dropped].at + TTL)
  }

  lemma {:induction false} SkippedStops<T>(items: seq<Item<T>>, since: nat, now: nat)
    ensures
      var k := Skipped(items, since, now);
      && (k < |items| ==> items[k].id > since && now < items[k].at + TTL)
      && (k > 0 ==> !(items[k - 1].id > since && now < items[k - 1].at + TTL))
  {
    if items != [] && !(items[0].id > since && now < items[0].at + TTL) {
      SkippedStops(items[1..], since, now);
    }
  }

  lemma {:induction false} EventsOfEventFrames(events: seq<Stamped<Wire>>)
    ensures EventsOf(EventFrames(events)) == seq(|events|, i requires 0 <= i < |events| => Yield(Some(events[i].id), events[i].event.data))
  {
    if events != [] {
      var init := events[..|events| - 1];
      EventsOfEventFrames(init);
      assert EventFrames(events)[..|events| - 1] == EventFrames(init);
    }
  }

  lemma ReplayElements(s: Net, since: nat, now: nat)
    requires BusOk(s)
    ensures
      var n, replay := |s.sent|, ReplaySince(s.buffer.items, since, now);
      && |replay| == |s.buffer.items| - Skipped(s.buffer.items, since, now) <= n
      && forall i :: 0 <= i < |replay| ==> replay[i] == Stamped(n - |replay| + i + 1, s.sent[n - |replay| + i])
  {
    var items, n := s.buffer.items, |s.sent|;
    var k := Skipped(items, since, now);
    ReplayIsSuffix(s.buffer, since, s.clock, now);
    var replay := ReplaySince(items, since, now);
    forall i | 0 <= i < |replay| ensures replay[i] == Stamped(n - |replay| + i + 1, s.sent[n - |replay| + i]) {
      assert IsSent(items[k + i], s.sent);
    }
  }

  /** A replay is the end of the bus. */
  lemma ReplayIsEnd(s: Net, since: nat, now: nat)
    requires BusOk(s)
    ensures
      var replay := ReplaySince(s.buffer.items, since, now);
      && |replay| == |s.buffer.items| - Skipped(s.buffer.items, since, now) <= |s.sent|
      && EventsOf(EventFrames(replay)) == Span(s.sent, |s.sent| - |replay|, |s.sent|)
  {
    ReplayElements(s, since, now);
    hide BusOk, ReplaySince, Skipped, EventsOf, EventFrames;
    EventsOfEventFrames(ReplaySince(s.buffer.items, since, now));
  }

  /** It starts after some position not before the cursor; and at the cursor itself exactly when the
      first missed event is covered. */
  lemma ReplayCoversIff(s: Net, since: nat, now: nat)
    requires BusOk(s) && since <= |s.sent|
    ensures
      var from := |s.sent| - |ReplaySince(s.buffer.items, since, now)|;
      since <= from && (from == since <==> Covered(s, since, now))
  {
    hide IsSent, ReplaySince, Skipped;
    var items, n := s.buffer.items, |s.sent|;
    var k := Skipped(items, since, now);
    ReplayIsEnd(s, since, now);
    SkippedStops(items, since, now);
    assert k < |items| ==> items[k].id == n - |items| + 1 + k;
    var j := since - (n - |items|);
    if 0 <= j < |items| {
      assert items[j].id == since + 1;
      assert j <= k - 1 ==> items[j].at <= items[k - 1].at;
    }
  }

  // ---- every step keeps it ------------------------------------------------------------------------

  lemma FaithfulMore(events: seq<Yield>, since: nat, sent: seq<Wire>, more: seq<Yield>)
    requires Faithful(events, since, sent) && Faithful(more, LastId(events, since), sent)
    ensures Faithful(events + more, since, sent)
  {
    var all := events + more;
    forall i, j | 0 <= i < j < |all| ensures IdOf(all[i]) < IdOf(all[j]) {
      if i < |events| <= j {
        assert IdOf(all[i]) <= LastId(events, since) < IdOf(more[j - |events|]);
      }
    }
  }

  lemma FaithfulPrefix(events: seq<Yield>, since: nat, sent: seq<Wire>, prefix: seq<Yield>)
    requires Faithful(events, since, sent) && prefix <= events
    ensures Faithful(prefix, since, sent)
    ensures LastId(prefix, since) <= LastId(events, since)
  {
  }

  lemma FaithfulStill(events: seq<Yield>, since: nat, sent: seq<Wire>, wire: Wire)
    requires Faithful(events, since, sent)
    ensures Faithful(events, since, sent + [wire])
  {
  }

  lemma SpanIsFaithful(sent: seq<Wire>, a: nat, b: nat, since: nat)
    requires since <= a <= b <= |sent|
    ensures Faithful(Span(sent, a, b), since, sent)
    ensures LastId(Span(sent, a, b), since) <= b && (a < b ==> LastId(Span(sent, a, b), since) == b)
  {
  }

  /** What the client has read of a connection hands out the events of its first frames. */
  lemma ReaderTakes(c: Conn) returns (taken: seq<Yield>)
    requires AtFrame(c.start) && FramesOk(c.frames) && c.read <= |Render(c.frames)|
    ensures
      var r := Scan(c.start, Render(c.frames)[..c.read]);
      && taken <= EventsOf(c.frames)
      && Events(r.handed) == Events(c.start.handed) + taken
      && r.cursor.last == (if taken == [] then c.start.cursor.last else taken[|taken| - 1].id)
      && (c.read == |Render(c.frames)| ==> Events(r.handed) == Events(c.start.handed) + EventsOf(c.frames))
  {
    hide Render, Scan, TakeAll, FramesOk, Events, EventsOf;
    var j := CutKeepsWholeFrames(c.start, c.frames, c.read);
    taken := EventsOf(c.frames[..j]);
    EventsOfPrefix(c.frames, j);
    TakeAllEvents(c.start, c.frames[..j]);
    if c.read == |Render(c.frames)| {
      TakeAllEvents(c.start, c.frames);
      assert Render(c.frames)[..|Render(c.frames)|] == Render(c.frames);
    }
  }

  /** A client reads whole frames' worth, so what it keeps is as faithful as the frames are. */
  lemma ReaderFollows(c: Conn, sent: seq<Wire>)
    requires ConnOk(c, sent)
    ensures ReaderOk(Scan(c.start, Render(c.frames)[..c.read]), sent)
    ensures
      var events := Events(Scan(c.start, Render(c.frames)[..c.read]).handed);
      && Events(c.start.handed) <= events
      && events[|Events(c.start.handed)|..] <= EventsOf(c.frames)
      && (c.read == |Render(c.frames)| ==> events == Events(c.start.handed) + EventsOf(c.frames))
  {
    hide Render, Scan, FramesOk, Faithful, Events, EventsOf;
    var taken := ReaderTakes(c);
    var before := Events(c.start.handed);
    FaithfulPrefix(EventsOf(c.frames), c.since, sent, taken);
    FaithfulMore(before, 0, sent, taken);
    assert (before + taken)[|before|..] == taken;
  }

  /** One more frame leaves what the client has read as it was. */
  lemma FrameMore(c: Conn, sent: seq<Wire>, f: Frame, pos: nat)
    requires ConnOk(c, sent) && FrameOk(f) && c.pos <= pos <= |sent|
    requires f.Frame? && f.id.Some? ==>
               c.pos < f.id.value == pos && f.data == sent[pos - 1].data
    ensures
      var more := c.(pos := pos, frames := c.frames + [f]);
      && ConnOk(more, sent)
      && Render(more.frames)[..c.read] == Render(c.frames)[..c.read]
  {
    hide Render, Scan, LinesOf, ReaderOk, Faithful, EventsOf;
    RenderMore(c.frames, f);
    EventsOfMore(c.frames, f);
    if f.Frame? && f.id.Some? {
      OneIsFaithful(Yield(f.id, f.data), LastId(EventsOf(c.frames), c.since), sent);
      FaithfulMore(EventsOf(c.frames), c.since, sent, [Yield(f.id, f.data)]);
    }
  }

  lemma OneIsFaithful(y: Yield, since: nat, sent: seq<Wire>)
    requires y.id.Some? && since < y.id.value <= |sent| && y.data == sent[y.id.value - 1].data
    ensures Faithful([y], since, sent)
  {
  }

  lemma ServeKeepsInv(s: Net, sync: string)
    requires Inv(s) && Enabled(s, Serve(sync))
    ensures Inv(Do(s, Serve(sync)))
  {
    hide ConnOk, Render, Scan, ReaderOk, BufferOk;
    var c := s.conn.value;
    if |s.sent| - c.pos > CAPACITY {
      FrameMore(c, s.sent, SyncFrame(sync), |s.sent| - CAPACITY);
    } else {
      FrameMore(c, s.sent, EventFrame(Stamped(c.pos + 1, s.sent[c.pos])), c.pos + 1);
    }
  }

  lemma KeepAliveKeepsInv(s: Net)
    requires Inv(s) && Enabled(s, KeepAlive)
    ensures Inv(Do(s, KeepAlive))
  {
    hide Render, Scan, ReaderOk, BufferOk;
    FrameMore(s.conn.value, s.sent, Ping, s.conn.value.pos);
  }

  lemma ReceiveKeepsInv(s: Net, n: nat)
    requires Inv(s) && Enabled(s, Receive(n))
    ensures Inv(Do(s, Receive(n)))
  {
    hide Render, Scan, ReaderOk, BufferOk;
    var c := s.conn.value;
    var text := Render(c.frames);
    ScanConcat(c.start, text[..c.read], text[c.read..c.read + n]);
    assert text[..c.read] + text[c.read..c.read + n] == text[..c.read + n];
    ReaderFollows(c.(read := c.read + n), s.sent);
  }

  lemma PublishKeepsInv(s: Net, wire: Wire, now: nat)
    requires Inv(s) && Enabled(s, Publish(wire, now))
    ensures Inv(Do(s, Publish(wire, now)))
  {
    hide Render, Scan, BufferOk, FramesOk, AtFrame, Faithful;
    var s' := Do(s, Publish(wire, now));
    PublishKeepsBus(s, wire, now);
    FaithfulStill(Events(s.reader.handed), 0, s.sent, wire);
    if s.conn.Some? {
      var c := s.conn.value;
      FaithfulStill(Events(c.start.handed), 0, s.sent, wire);
      FaithfulStill(EventsOf(c.frames), c.since, s.sent, wire);
    }
  }

  lemma PublishKeepsBus(s: Net, wire: Wire, now: nat)
    requires BusOk(s) && Enabled(s, Publish(wire, now))
    ensures BusOk(Do(s, Publish(wire, now)))
  {
    AppendKeepsOk(s.buffer, wire, s.clock, now);
    var s' := Do(s, Publish(wire, now));
    forall i | 0 <= i < |s'.buffer.items| ensures IsSent(s'.buffer.items[i], s'.sent) {
      var k := |s.buffer.items| + 1 - |s'.buffer.items|;
      if i + k < |s.buffer.items| {
        assert IsSent(s.buffer.items[i + k], s.sent);
      }
    }
  }

  lemma CursorIff(r: Reader, sent: seq<Wire>)
    requires ReaderOk(r, sent)
    ensures r.cursor.last.Some? <==> Events(r.handed) != []
  {
  }

  lemma HeaderRoundTrip(r: Reader, sent: seq<Wire>)
    requires ReaderOk(r, sent) && |sent| <= U64_MAX
    ensures HeaderSince(r.cursor.last) == LastId(Events(r.handed), 0) <= |sent|
  {
    if r.cursor.last.Some? {
      ParseOfPrint(r.cursor.last.value);
    }
  }

  /** The frames a connection starts with: the greeting, the replay, the baseline. */
  lemma OpenedFrames(s: Net, now: nat, sync: string)
    requires BusOk(s) && OneLine(sync)
    ensures
      var c := Opened(s, now, sync);
      var replay := ReplaySince(s.buffer.items, c.since, now);
      && FramesOk(c.frames) && |replay| <= |s.sent|
      && EventsOf(c.frames) == Span(s.sent, |s.sent| - |replay|, |s.sent|)
  {
    hide EventsOf, ReplaySince, BusOk, EventFrames, Skipped;
    var replay := ReplaySince(s.buffer.items, HeaderSince(s.reader.cursor.last), now);
    ReplayIsEnd(s, HeaderSince(s.reader.cursor.last), now);
    ReplayFramesOk(s, HeaderSince(s.reader.cursor.last), now);
    EventsBetween(EventFrames(replay), sync);
  }

  lemma EventsBetween(frames: seq<Frame>, sync: string)
    ensures EventsOf([READY] + frames + [SyncFrame(sync)]) == EventsOf(frames)
  {
    EventsOfMore([], READY);
    EventsOfConcat([READY], frames);
    EventsOfMore([READY] + frames, SyncFrame(sync));
    assert [] + [READY] == [READY] && [] + EventsOf(frames) == EventsOf(frames);
  }

  lemma ReplayFramesOk(s: Net, since: nat, now: nat)
    requires BusOk(s)
    ensures FramesOk(EventFrames(ReplaySince(s.buffer.items, since, now)))
  {
    var items := s.buffer.items;
    ReplayIsSuffix(s.buffer, since, s.clock, now);
    var k := Skipped(items, since, now);
    var frames := EventFrames(Stamp(items[k..]));
    forall i | 0 <= i < |frames| ensures FrameOk(frames[i]) {
      assert IsSent(items[k + i], s.sent);
    }
  }

  lemma ConnBegins(c: Conn, sent: seq<Wire>, first: nat)
    requires c.since <= first <= |sent| == c.pos && c.read == 0 && FramesOk(c.frames)
    requires EventsOf(c.frames) == Span(sent, first, |sent|)
    requires AtFrame(c.start) && ReaderOk(c.start, sent) && c.since == LastId(Events(c.start.handed), 0)
    requires Events(c.start.handed) != [] ==> c.from == c.since
    ensures ConnOk(c, sent)
  {
    hide Render, EventsOf, Span, Faithful, FramesOk, Events;
    SpanIsFaithful(sent, first, |sent|, c.since);
  }

  lemma OpenedOk(s: Net, now: nat, sync: string)
    requires Inv(s) && Enabled(s, Connect(now, sync))
    ensures ConnOk(Opened(s, now, sync), s.sent)
  {
    CursorIff(s.reader, s.sent);
    hide ConnOk, EventsOf, ReplaySince, Faithful, FramesOk, Span, Events, HeaderSince, EventFrames;
    HeaderRoundTrip(s.reader, s.sent);
    OpenedFrames(s, now, sync);
    hide BusOk;
    var c := Opened(s, now, sync);
    ReplayCoversIff(s, c.since, now);
    ConnBegins(c, s.sent, |s.sent| - |ReplaySince(s.buffer.items, c.since, now)|);
  }

  lemma BusLater(s: Net, s': Net)
    requires BusOk(s) && s'.buffer == s.buffer && s'.sent == s.sent && s.clock <= s'.clock
    ensures BusOk(s')
  {
  }

  lemma ConnectKeepsInv(s: Net, now: nat, sync: string)
    requires Inv(s) && Enabled(s, Connect(now, sync))
    ensures Inv(Do(s, Connect(now, sync)))
  {
    hide Render, BusOk, ConnOk, Events, Faithful;
    BusLater(s, Do(s, Connect(now, sync)));
    OpenedOk(s, now, sync);
  }

  lemma DoKeepsInv(s: Net, a: Action)
    requires Inv(s) && Enabled(s, a)
    ensures Inv(Do(s, a))
  {
    match a
    case Publish(wire, now) => PublishKeepsInv(s, wire, now);
    case ClearHistory =>
    case Connect(now, sync) => ConnectKeepsInv(s, now, sync);
    case Serve(sync) => ServeKeepsInv(s, sync);
    case KeepAlive => KeepAliveKeepsInv(s);
    case Receive(n) => ReceiveKeepsInv(s, n);
    case Cut =>
  }

  lemma {:induction false} EveryStateIsSound(states: seq<Net>, actions: seq<Action>, i: nat)
    requires Run(states, actions) && i < |states|
    ensures Inv(states[i])
  {
    if i > 0 {
      EveryStateIsSound(states, actions, i - 1);
      DoKeepsInv(states[i - 1], actions[i - 1]);
    }
  }

  /** Whatever is cut, lost, cleared or lagged behind: the client is handed only events that were sent,
      under their own ids, none twice and never out of order. */
  lemma NothingTwiceNorOutOfOrder(states: seq<Net>, actions: seq<Action>, i: nat)
    requires Run(states, actions) && i < |states|
    ensures Faithful(Events(states[i].reader.handed), 0, states[i].sent)
  {
    EveryStateIsSound(states, actions, i);
  }
}
