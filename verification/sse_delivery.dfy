/** What reaches the client over whole runs of the event stream: everything, once each and in order, over
    every stretch in which no step loses anything. */
module SseDelivery {
  import opened Wrappers
  import opened History
  import opened SseText
  import opened SseSessions

  /** Nothing is lost at this step: a reconnect finds its first missed event still in the window (a first
      connection misses none), and the receiver has not fallen behind the channel. */
  predicate Smooth(s: Net, a: Action) {
    match a
    case Connect(now, _) => s.reader.cursor.last.None? || Covered(s, HeaderSince(s.reader.cursor.last), now)
    case Serve(_) => s.conn.Some? && |s.sent| - s.conn.value.pos <= CAPACITY
    case _ => true
  }

  /** From index `n` on, every event follows the one before it on the bus. */
  predicate RunsOn(events: seq<Yield>, n: nat) {
    forall i :: n <= i < |events| && 0 < i ==> IdOf(events[i]) == IdOf(events[i - 1]) + 1
  }

  /** Since `n` events were handed out, none has been left out; and the present connection has written
      everything it owes up to the receiver's position. */
  predicate InStep(s: Net, n: nat) {
    && n <= |Events(s.reader.handed)|
    && RunsOn(Events(s.reader.handed), n)
    && (s.conn.Some? ==> ConnInStep(s.conn.value, n))
  }

  predicate ConnInStep(c: Conn, n: nat) {
    && n <= |Events(c.start.handed)|
    && RunsOn(Events(c.start.handed), n)
    && Gapless(EventsOf(c.frames), c.from)
    && LastId(EventsOf(c.frames), c.from) == c.pos
  }

  lemma GaplessLast(events: seq<Yield>, since: nat)
    requires Gapless(events, since)
    ensures LastId(events, since) == since + |events|
  {
  }

  lemma SpanGaplessIff(sent: seq<Wire>, a: nat, b: nat, since: nat)
    requires since <= a <= b <= |sent|
    ensures Gapless(Span(sent, a, b), since) && LastId(Span(sent, a, b), since) == b <==> a == since
  {
    if a < b {
      assert Span(sent, a, b)[0].id == Some(a + 1);
      assert IdOf(Span(sent, a, b)[0]) == a + 1;
    }
  }

  lemma ConnectInStepIff(s: Net, now: nat, sync: string, n: nat)
    requires Inv(s) && InStep(s, n) && Enabled(s, Connect(now, sync))
    ensures InStep(Do(s, Connect(now, sync)), n) <==> Smooth(s, Connect(now, sync))
  {
    hide EventsOf, ReplaySince, Faithful, FramesOk, Gapless, LastId, Covered, Span, RunsOn;
    var c := Opened(s, now, sync);
    HeaderRoundTrip(s.reader, s.sent);
    OpenedFrames(s, now, sync);
    ReplayCoversIff(s, c.since, now);
    SpanGaplessIff(s.sent, |s.sent| - |ReplaySince(s.buffer.items, c.since, now)|, |s.sent|, c.from);
  }

  lemma ServeInStepIff(s: Net, sync: string, n: nat)
    requires Inv(s) && InStep(s, n) && Enabled(s, Serve(sync))
    ensures InStep(Do(s, Serve(sync)), n) <==> Smooth(s, Serve(sync))
  {
    hide Inv, EventsOf, Gapless, LastId, RunsOn;
    var c := s.conn.value;
    if |s.sent| - c.pos > CAPACITY {
      EventsOfMore(c.frames, SyncFrame(sync));
    } else {
      var f := EventFrame(Stamped(c.pos + 1, s.sent[c.pos]));
      EventsOfMore(c.frames, f);
      OneMoreGapless(EventsOf(c.frames), c.from, Yield(f.id, f.data));
    }
  }

  lemma OneMoreGapless(events: seq<Yield>, since: nat, more: Yield)
    requires Gapless(events, since) && IdOf(more) == LastId(events, since) + 1
    ensures Gapless(events + [more], since) && LastId(events + [more], since) == IdOf(more)
  {
    GaplessLast(events, since);
  }

  /** What a connection owes joins on to what the client had. */
  lemma RunsOnMore(before: seq<Yield>, n: nat, from: nat, more: seq<Yield>)
    requires RunsOn(before, n) && Gapless(more, from) && (before != [] ==> from == LastId(before, 0))
    ensures RunsOn(before + more, n)
  {
  }

  lemma ReceiveStaysInStep(s: Net, k: nat, n: nat)
    requires Inv(s) && InStep(s, n) && Enabled(s, Receive(k))
    ensures InStep(Do(s, Receive(k)), n)
  {
    hide Render, Scan, Faithful, FramesOk, RunsOn;
    ReceiveKeepsInv(s, k);
    var c := Do(s, Receive(k)).conn.value;
    ReaderFollows(c, s.sent);
    var before, all := Events(c.start.handed), Events(Do(s, Receive(k)).reader.handed);
    assert all == before + all[|before|..];
    RunsOnMore(before, n, c.from, all[|before|..]);
  }

  /** A client and server in step stay so exactly when the step is smooth. */
  lemma StaysInStepIff(s: Net, a: Action, n: nat)
    requires Inv(s) && InStep(s, n) && Enabled(s, a)
    ensures InStep(Do(s, a), n) <==> Smooth(s, a)
  {
    match a
    case Connect(now, sync) => ConnectInStepIff(s, now, sync, n);
    case Serve(sync) => ServeInStepIff(s, sync, n);
    case Receive(k) => ReceiveStaysInStep(s, k, n);
    case KeepAlive => EventsOfMore(s.conn.value.frames, Ping);
    case _ =>
  }

  /** What was handed out stays handed out. */
  lemma HandedGrows(s: Net, a: Action)
    requires Inv(s) && Enabled(s, a)
    ensures Events(s.reader.handed) <= Events(Do(s, a).reader.handed)
  {
    hide Inv, Events, Scan, Render;
    if a.Receive? {
      var c := s.conn.value;
      ScanKeepsEvents(s.reader, Render(c.frames)[c.read..c.read + a.n]);
    }
  }

  lemma {:induction false} ScanKeepsEvents(r: Reader, text: string)
    ensures Events(r.handed) <= Events(Scan(r, text).handed)
  {
    if text != [] {
      ScanKeepsEvents(r, text[..|text| - 1]);
      var before, after := Scan(r, text[..|text| - 1]).handed, Scan(r, text).handed;
      if after != before {
        assert after[..|after| - 1] == before;
      }
    }
  }

  /** From a moment without a connection on, no step loses anything. */
  predicate SmoothStretch(states: seq<Net>, actions: seq<Action>, i: nat, j: nat) {
    && Run(states, actions) && i <= j < |states| && states[i].conn.None?
    && forall k :: i <= k < j ==> Smooth(states[k], actions[k])
  }

  lemma BeginsInStep(s: Net)
    requires s.conn.None?
    ensures InStep(s, |Events(s.reader.handed)|)
  {
  }

  lemma {:induction false} StretchStaysInStep(states: seq<Net>, actions: seq<Action>, i: nat, j: nat)
    requires SmoothStretch(states, actions, i, j)
    ensures Inv(states[j]) && InStep(states[j], |Events(states[i].reader.handed)|)
    ensures Events(states[i].reader.handed) <= Events(states[j].reader.handed)
  {
    hide Inv, InStep, Smooth, Enabled, Do, Events;
    EveryStateIsSound(states, actions, j);
    if i == j {
      BeginsInStep(states[i]);
    } else {
      StretchStaysInStep(states, actions, i, j - 1);
      assert Enabled(states[j - 1], actions[j - 1]) && states[j] == Do(states[j - 1], actions[j - 1]);
      assert Smooth(states[j - 1], actions[j - 1]);
      StaysInStepIff(states[j - 1], actions[j - 1], |Events(states[i].reader.handed)|);
      HandedGrows(states[j - 1], actions[j - 1]);
    }
  }

  /** The client has read everything a caught-up connection wrote. */
  predicate CaughtUp(s: Net) {
    && s.conn.Some? && s.conn.value.pos == |s.sent|
    && s.conn.value.read == |Render(s.conn.value.frames)|
  }

  /** Exactly the events of one stretch of the bus were handed out, each once and in order, joining on to
      those handed out before; the cursor stands at the last one. */
  predicate HandsOutSpan(s: Net, before: seq<Yield>) {
    var events := Events(s.reader.handed);
    && before <= events
    && HeaderSince(s.reader.cursor.last) == LastId(events, 0) <= |s.sent|
    && var fresh' := events[|before|..];
    && (fresh' != [] ==>
          var a := IdOf(fresh'[0]) - 1;
          && 0 <= a && a + |fresh'| <= |s.sent| && fresh' == Span(s.sent, a, a + |fresh'|)
          && (before != [] ==> a == LastId(before, 0)))
  }

  lemma RunIsSpan(events: seq<Yield>, sent: seq<Wire>)
    requires events != [] && RunsOn(events, 1) && Faithful(events, 0, sent)
    ensures
      var a := IdOf(events[0]) - 1;
      0 <= a && a + |events| <= |sent| && events == Span(sent, a, a + |events|)
  {
    RunCounts(events, |events| - 1);
    forall i | 0 <= i < |events| ensures IdOf(events[i]) == IdOf(events[0]) + i {
      RunCounts(events, i);
    }
  }

  lemma {:induction false} RunCounts(events: seq<Yield>, i: nat)
    requires i < |events| && RunsOn(events, 1)
    ensures IdOf(events[i]) == IdOf(events[0]) + i
  {
    if i > 0 {
      RunCounts(events, i - 1);
    }
  }

  lemma TailRuns(events: seq<Yield>, n: nat, sent: seq<Wire>)
    requires n <= |events| && RunsOn(events, n) && Faithful(events, 0, sent)
    ensures RunsOn(events[n..], 1) && Faithful(events[n..], 0, sent)
    ensures 0 < n < |events| ==> IdOf(events[n]) == IdOf(events[n - 1]) + 1
  {
    var tail := events[n..];
    forall i | 1 <= i < |tail| ensures IdOf(tail[i]) == IdOf(tail[i - 1]) + 1 {
      assert tail[i] == events[n + i] && tail[i - 1] == events[n + i - 1];
    }
  }

  lemma SettledSpan(s: Net, before: seq<Yield>)
    requires Inv(s) && InStep(s, |before|) && before <= Events(s.reader.handed)
    ensures HandsOutSpan(s, before)
  {
    hide Faithful, RunsOn, Events, ConnOk, ConnInStep, Span;
    var events := Events(s.reader.handed);
    var fresh' := events[|before|..];
    HeaderRoundTrip(s.reader, s.sent);
    TailRuns(events, |before|, s.sent);
    if fresh' != [] {
      RunIsSpan(fresh', s.sent);
      assert before != [] ==> before[|before| - 1] == events[|before| - 1];
    }
  }

  lemma SettledAtTheEnd(s: Net, n: nat)
    requires Inv(s) && InStep(s, n) && CaughtUp(s)
    ensures LastId(Events(s.reader.handed), s.conn.value.from) == |s.sent|
  {
    hide Render, Scan, FramesOk, Faithful;
    var c := s.conn.value;
    ReaderFollows(c, s.sent);
    if EventsOf(c.frames) == [] {
      assert Events(c.start.handed) + EventsOf(c.frames) == Events(c.start.handed);
    }
  }

  /** End to end over any disconnects, over any stretch of a run in which no step loses anything, even
      after earlier losses and wherever the client joined: the bus events it is handed are those of one
      stretch of the bus, each once and in order, right behind the last one it had; and when it has read
      all that a caught-up connection wrote, they reach to the end of the bus (or nothing was owed). */
  lemma ExactlyOnceOverStretch(states: seq<Net>, actions: seq<Action>, i: nat, j: nat)
    requires SmoothStretch(states, actions, i, j)
    ensures HandsOutSpan(states[j], Events(states[i].reader.handed))
    ensures CaughtUp(states[j]) ==> LastId(Events(states[j].reader.handed), states[j].conn.value.from) == |states[j].sent|
  {
    hide Inv, InStep, HandsOutSpan, CaughtUp;
    StretchStaysInStep(states, actions, i, j);
    SettledSpan(states[j], Events(states[i].reader.handed));
    if CaughtUp(states[j]) {
      SettledAtTheEnd(states[j], |Events(states[i].reader.handed)|);
    }
  }

  /** The same over a whole run: all the client was ever handed is one stretch of the bus, beginning
      where it joined. */
  lemma ExactlyOnceInOrder(states: seq<Net>, actions: seq<Action>, j: nat)
    requires SmoothStretch(states, actions, 0, j)
    ensures
      var s := states[j];
      var events := Events(s.reader.handed);
      && (events != [] ==>
            var a := IdOf(events[0]) - 1;
            0 <= a && a + |events| <= |s.sent| && events == Span(s.sent, a, a + |events|))
      && HeaderSince(s.reader.cursor.last) == LastId(events, 0)
      && (CaughtUp(s) ==> LastId(events, s.conn.value.from) == |s.sent|)
  {
    ExactlyOnceOverStretch(states, actions, 0, j);
    hide Render, Run;
    var events := Events(states[j].reader.handed);
    assert events[0..] == events;
  }

  // ---- where a client joins -------------------------------------------------------------------------

  /** A connection without a cursor begins with exactly the buffered events that are young enough. */
  lemma JoinsAtTheWindow(s: Net, now: nat, i: nat)
    requires BusOk(s) && i < |s.buffer.items|
    ensures
      var from := |s.sent| - |ReplaySince(s.buffer.items, 0, now)|;
      0 <= from && (s.buffer.items[i].id > from <==> now < s.buffer.items[i].at + TTL)
  {
    var items := s.buffer.items;
    var k := Skipped(items, 0, now);
    ReplayIsEnd(s, 0, now);
    SkippedStops(items, 0, now);
    hide ReplaySince, Skipped, IsSent;
    assert items[i].id == |s.sent| - |items| + 1 + i;
    if i < k {
      assert items[k - 1].id > 0 && items[i].at <= items[k - 1].at;
    } else {
      assert items[k].at <= items[i].at;
    }
  }

  /** A first connection, too, finds the first event of all. */
  predicate SmoothFromZero(s: Net, a: Action) {
    Smooth(s, a) && (a.Connect? ==> Covered(s, HeaderSince(s.reader.cursor.last), a.now))
  }

  predicate FromZero(s: Net) {
    && (Events(s.reader.handed) != [] ==> IdOf(Events(s.reader.handed)[0]) == 1)
    && (s.conn.Some? ==>
          var events := Events(s.conn.value.start.handed);
          if events == [] then s.conn.value.from == 0 else IdOf(events[0]) == 1)
  }

  lemma StaysFromZero(s: Net, a: Action, n: nat)
    requires Inv(s) && InStep(s, n) && FromZero(s) && Enabled(s, a) && SmoothFromZero(s, a)
    ensures FromZero(Do(s, a))
  {
    match a
    case Connect(now, sync) => ConnectFromZero(s, now, sync);
    case Receive(k) => ReceiveFromZero(s, k, n);
    case _ =>
      hide Render, Scan, Faithful, FramesOk, RunsOn, Events;
  }

  lemma ConnectFromZero(s: Net, now: nat, sync: string)
    requires Inv(s) && FromZero(s) && Enabled(s, Connect(now, sync)) && Covered(s, HeaderSince(s.reader.cursor.last), now)
    ensures FromZero(Do(s, Connect(now, sync)))
  {
    CursorIff(s.reader, s.sent);
    hide Render, Scan, Faithful, FramesOk, Events, ReplaySince, Covered, BufferOk;
    HeaderRoundTrip(s.reader, s.sent);
    ReplayCoversIff(s, HeaderSince(s.reader.cursor.last), now);
  }

  lemma ReceiveFromZero(s: Net, k: nat, n: nat)
    requires Inv(s) && InStep(s, n) && FromZero(s) && Enabled(s, Receive(k))
    ensures FromZero(Do(s, Receive(k)))
  {
    hide Render, Scan, Faithful, FramesOk, RunsOn, Events, EventsOf, ReaderOk, BusOk;
    ReceiveKeepsInv(s, k);
    var c := Do(s, Receive(k)).conn.value;
    ReaderFollows(c, s.sent);
    var before, all := Events(c.start.handed), Events(Do(s, Receive(k)).reader.handed);
    if all != [] {
      assert if before == [] then all[0] == all[|before|..][0] == EventsOf(c.frames)[0] else all[0] == before[0];
    }
  }

  lemma {:induction false} RunStaysFromZero(states: seq<Net>, actions: seq<Action>, j: nat)
    requires SmoothStretch(states, actions, 0, j)
    requires forall k :: 0 <= k < j ==> SmoothFromZero(states[k], actions[k])
    ensures FromZero(states[j])
  {
    if j > 0 {
      RunStaysFromZero(states, actions, j - 1);
      StretchStaysInStep(states, actions, 0, j - 1);
      hide Inv, InStep, Smooth, Enabled, Do, FromZero;
      assert Enabled(states[j - 1], actions[j - 1]) && states[j] == Do(states[j - 1], actions[j - 1]);
      assert SmoothFromZero(states[j - 1], actions[j - 1]);
      StaysFromZero(states[j - 1], actions[j - 1], |Events(states[0].reader.handed)|);
    }
  }

  /** If even the first connection found the first event, the client has been handed the first so many
      events of the bus, and all of them when it has read what a caught-up connection wrote. */
  lemma ExactlyOnceFromTheFirst(states: seq<Net>, actions: seq<Action>, j: nat)
    requires SmoothStretch(states, actions, 0, j)
    requires forall k :: 0 <= k < j ==> SmoothFromZero(states[k], actions[k])
    ensures
      var s := states[j];
      var events := Events(s.reader.handed);
      && |events| <= |s.sent| && events == Span(s.sent, 0, |events|)
      && (CaughtUp(s) ==> |events| == |s.sent|)
  {
    hide Inv, InStep, Smooth, SmoothFromZero, FromZero, Run, Span, CaughtUp, Events;
    ExactlyOnceInOrder(states, actions, j);
    RunStaysFromZero(states, actions, j);
    StretchStaysInStep(states, actions, 0, j);
    SpanFromZero(states[j]);
  }

  /** One stretch of the bus that begins with its first event. */
  lemma SpanFromZero(s: Net)
    requires Inv(s) && FromZero(s)
    requires
      var events := Events(s.reader.handed);
      && (events != [] ==>
            var a := IdOf(events[0]) - 1;
            0 <= a && a + |events| <= |s.sent| && events == Span(s.sent, a, a + |events|))
      && (CaughtUp(s) ==> LastId(events, s.conn.value.from) == |s.sent|)
    ensures
      var events := Events(s.reader.handed);
      && |events| <= |s.sent| && events == Span(s.sent, 0, |events|)
      && (CaughtUp(s) ==> |events| == |s.sent|)
  {
    hide Render, Scan, BusOk, Faithful, FramesOk, Events, EventsOf;
    if CaughtUp(s) {
      ReaderFollows(s.conn.value, s.sent);
    }
  }
}
