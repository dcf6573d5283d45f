/** What the replay window holds at any moment of a run, told from what was published and when, and hence
    which reconnects miss nothing. */
module SseWindow {
  import opened Wrappers
  import opened History
  import opened SseText
  import opened SseSessions

  /** The events published, in order, and the time of each. */
  function Published(actions: seq<Action>): seq<Wire> {
    if actions == [] then []
    else
      var rest, last := Published(actions[..|actions| - 1]), actions[|actions| - 1];
      if last.Publish? then rest + [last.wire] else rest
  }

  function Times(actions: seq<Action>): (times: seq<nat>)
    ensures |times| == |Published(actions)|
  {
    if actions == [] then []
    else
      var rest, last := Times(actions[..|actions| - 1]), actions[|actions| - 1];
      if last.Publish? then rest + [last.now] else rest
  }

  /** How many events were published since the history was last cleared. */
  function SinceClear(actions: seq<Action>): nat {
    if actions == [] then 0
    else
      var rest, last := SinceClear(actions[..|actions| - 1]), actions[|actions| - 1];
      if last.Publish? then rest + 1 else if last.ClearHistory? then 0 else rest
  }

  /** The buffer holds exactly the last so many of the events published, each under its own number, with
      the time it was published at. */
  predicate HoldsLatest(items: seq<Item<Wire>>, wires: seq<Wire>, times: seq<nat>, count: nat)
    requires |times| == |wires|
  {
    |items| == count <= |wires| && forall k :: 0 <= k < count ==> IsEvent(items[k], wires, times, |wires| - count + k)
  }

  /** The event number `p`, counted from zero. */
  predicate IsEvent(item: Item<Wire>, wires: seq<Wire>, times: seq<nat>, p: nat)
    requires p < |wires| == |times|
  {
    item == Item(p + 1, times[p], wires[p])
  }

  lemma KeptEvent(b: Buffer<Wire>, wires: seq<Wire>, times: seq<nat>, wire: Wire, now: nat, k: nat)
    requires |times| == |wires| && HoldsLatest(b.items, wires, times, |b.items|) && |b.items| <= MAX
    requires k < |Append(b, wire, now).items| - 1
    ensures
      var items := Append(b, wire, now).items;
      |items| - 1 <= |wires| && IsEvent(items[k], wires + [wire], times + [now], |wires| + 1 - |items| + k)
  {
    AppendKeepsTheLatest(b, wire, now);
    hide Append;
    var items, kept := Append(b, wire, now).items, Min(|b.items|, MAX - 1);
    assert items[..|items| - 1][k] == items[k];
    assert IsEvent(b.items[|b.items| - kept + k], wires, times, |wires| - kept + k);
  }

  lemma HoldsOneMore(b: Buffer<Wire>, wires: seq<Wire>, times: seq<nat>, n: nat, wire: Wire, now: nat)
    requires |times| == |wires| == b.lastId && HoldsLatest(b.items, wires, times, Min(MAX, n))
    ensures HoldsLatest(Append(b, wire, now).items, wires + [wire], times + [now], Min(MAX, n + 1))
  {
    AppendKeepsTheLatest(b, wire, now);
    var items := Append(b, wire, now).items;
    assert IsEvent(items[|items| - 1], wires + [wire], times + [now], |wires|);
    hide Append, IsEvent;
    forall k | 0 <= k < |items| ensures IsEvent(items[k], wires + [wire], times + [now], |wires| + 1 - |items| + k) {
      if k < |items| - 1 {
        KeptEvent(b, wires, times, wire, now, k);
      }
    }
  }

  lemma OneMoreAction(actions: seq<Action>, i: nat)
    requires 0 < i <= |actions|
    ensures actions[..i] == actions[..i - 1] + [actions[i - 1]] && actions[..i][..i - 1] == actions[..i - 1]
  {
  }

  /** At any moment of any run the buffer holds the latest events published since it was last cleared, at
      most so many as fit, and none of them is ever dropped for another reason. */
  lemma {:induction false} BufferHoldsTheLatest(states: seq<Net>, actions: seq<Action>, i: nat)
    requires Run(states, actions) && i < |states|
    ensures states[i].sent == Published(actions[..i]) && states[i].buffer.lastId == |states[i].sent|
    ensures HoldsLatest(states[i].buffer.items, Published(actions[..i]), Times(actions[..i]), Min(MAX, SinceClear(actions[..i])))
  {
    if i > 0 {
      BufferHoldsTheLatest(states, actions, i - 1);
      OneMoreAction(actions, i);
      var s, a, before := states[i - 1], actions[i - 1], actions[..i - 1];
      assert Enabled(s, a) && states[i] == Do(s, a);
      hide Render, Scan, Opened, Served, Run;
      if a.Publish? {
        hide HoldsLatest;
        HoldsOneMore(s.buffer, Published(before), Times(before), SinceClear(before), a.wire, a.now);
      }
    }
  }

  /** Exactly which clients miss nothing by reconnecting: those that missed no more events than fit, none of
      them before the history was last cleared, and the first of them less than the time limit ago. */
  lemma CoveredIff(states: seq<Net>, actions: seq<Action>, i: nat, since: nat, now: nat)
    requires Run(states, actions) && i < |states| && since <= |states[i].sent|
    ensures |Times(actions[..i])| == |states[i].sent|
    ensures
      var missed := |states[i].sent| - since;
      Covered(states[i], since, now)
      <==> missed <= MAX && missed <= SinceClear(actions[..i]) && (missed > 0 ==> now < Times(actions[..i])[since] + TTL)
  {
    BufferHoldsTheLatest(states, actions, i);
    hide Run, Published, Times, SinceClear, HoldsLatest;
    WindowCovers(states[i], Times(actions[..i]), Min(MAX, SinceClear(actions[..i])), since, now);
  }

  lemma WindowCovers(s: Net, times: seq<nat>, count: nat, since: nat, now: nat)
    requires |times| == |s.sent| && HoldsLatest(s.buffer.items, s.sent, times, count) && since <= |s.sent|
    ensures Covered(s, since, now)
       <==> |s.sent| - since <= count && (since < |s.sent| ==> now < times[since] + TTL)
  {
    var items, dropped := s.buffer.items, |s.sent| - count;
    if dropped <= since < |s.sent| {
      assert IsEvent(items[since - dropped], s.sent, times, since);
    }
    hide HoldsLatest;
  }

  // ---- what the frames say ------------------------------------------------------------------------

  /** A greeting, a baseline or a keep-alive; or an event as it was sent, under its own number. */
  predicate IsKnown(f: Frame, sent: seq<Wire>) {
    || f.Ping?
    || (f.id.None? && f.name in {"ready", "sync"})
    || (f.id.Some? && 0 < f.id.value <= |sent| && f.name == sent[f.id.value - 1].name && f.data == sent[f.id.value - 1].data)
  }

  predicate AllKnown(frames: seq<Frame>, sent: seq<Wire>) {
    forall f :: f in frames ==> IsKnown(f, sent)
  }

  lemma KnownWithMore(frames: seq<Frame>, sent: seq<Wire>, wire: Wire)
    requires AllKnown(frames, sent)
    ensures AllKnown(frames, sent + [wire])
  {
  }

  lemma OpeningIsKnown(s: Net, now: nat, sync: string)
    requires BusOk(s)
    ensures
      var frames := Opened(s, now, sync).frames;
      |frames| >= 2 && frames[0] == READY && frames[|frames| - 1] == SyncFrame(sync) && AllKnown(frames, s.sent)
  {
    var since := HeaderSince(s.reader.cursor.last);
    var replay := ReplaySince(s.buffer.items, since, now);
    ReplayElements(s, since, now);
    hide BusOk, ReplaySince, Skipped;
    forall f | f in EventFrames(replay) ensures IsKnown(f, s.sent) {
      var i :| 0 <= i < |replay| && EventFrames(replay)[i] == f;
      assert replay[i] == Stamped(|s.sent| - |replay| + i + 1, s.sent[|s.sent| - |replay| + i]);
    }
  }

  /** All the connection has written is known, the greeting first. */
  predicate ConnKnown(s: Net) {
    s.conn.Some? ==>
      var frames := s.conn.value.frames;
      frames != [] && frames[0] == READY && AllKnown(frames, s.sent)
  }

  lemma StepKeepsKnown(s: Net, a: Action)
    requires BusOk(s) && Enabled(s, a) && ConnKnown(s)
    ensures ConnKnown(Do(s, a))
  {
    hide BusOk, AllKnown, Render, Scan, Append, Opened;
    match a
    case Connect(now, sync) => OpeningIsKnown(s, now, sync);
    case Publish(wire, now) =>
      if s.conn.Some? {
        KnownWithMore(s.conn.value.frames, s.sent, wire);
      }
    case Serve(sync) => ServedIsKnown(s.conn.value, s.sent, sync);
    case KeepAlive => OneMoreKnown(s.conn.value.frames, Ping, s.sent);
    case _ =>
  }

  lemma OneMoreKnown(frames: seq<Frame>, f: Frame, sent: seq<Wire>)
    requires AllKnown(frames, sent) && IsKnown(f, sent)
    ensures AllKnown(frames + [f], sent)
  {
  }

  lemma ServedIsKnown(c: Conn, sent: seq<Wire>, sync: string)
    requires c.pos < |sent| && AllKnown(c.frames, sent)
    ensures AllKnown(Served(c, sent, sync).frames, sent)
  {
    hide AllKnown;
    OneMoreKnown(c.frames, SyncFrame(sync), sent);
    OneMoreKnown(c.frames, EventFrame(Stamped(c.pos + 1, sent[c.pos])), sent);
  }

  /** In every run, all a connection writes is the greeting first, and then baselines, keep-alives and
      events, each with the name and the data it was sent with, under its own number. */
  lemma {:induction false} FramesSayWhatWasSent(states: seq<Net>, actions: seq<Action>, i: nat)
    requires Run(states, actions) && i < |states|
    ensures ConnKnown(states[i])
  {
    hide ConnKnown, Do, Inv, BusOk;
    if i == 0 {
      StartIsKnown();
    } else {
      FramesSayWhatWasSent(states, actions, i - 1);
      BusIsOk(states, actions, i - 1);
      var s, a := states[i - 1], actions[i - 1];
      assert Enabled(s, a) && states[i] == Do(s, a);
      StepKeepsKnown(s, a);
    }
  }

  lemma StartIsKnown()
    ensures ConnKnown(START)
  {
  }

  lemma BusIsOk(states: seq<Net>, actions: seq<Action>, i: nat)
    requires Run(states, actions) && i < |states|
    ensures BusOk(states[i])
  {
    EveryStateIsSound(states, actions, i);
    hide Run, BusOk, ReaderOk, ConnOk;
  }
}
