/** The body of one event stream response (`sse_from` in `src/server/handlers/push_events.rs`) over the event
    bus, proved to be the connection of the session model. */
module PushEvents {
  import opened Wrappers
  import opened History
  import opened SseText
  import opened SseSessions

  function Wires(sent: seq<Stamped<Wire>>): (wires: seq<Wire>)
    ensures |wires| == |sent|
  {
    seq(|sent|, i requires 0 <= i < |sent| => sent[i].event)
  }

  /** The bus and a client about to connect, as the session model sees them. */
  ghost function NetOf(bus: EventBus<Wire>, reader: Reader): Net
    reads bus, bus.history
  {
    Net(bus.history.Value(), Wires(bus.sent), bus.clock, None, reader)
  }

  /** The live loop until nothing is left in the channel. */
  function ServeAll(c: Conn, sent: seq<Wire>, sync: string): Conn
    decreases |sent| - c.pos
  {
    if c.pos >= |sent| then c else ServeAll(Served(c, sent, sync), sent, sync)
  }

  class PushStream {
    const bus: EventBus<Wire>
    var pos: nat
    var frames: seq<Frame>

    /** This stream as the connection `c` of the session model. */
    ghost function Value(c: Conn): Conn
      reads this
    {
      c.(pos := pos, frames := frames)
    }

    /** Subscribes, greets, replays what the client missed, then gives the present baseline. */
    constructor (bus: EventBus<Wire>, since: nat, now: nat, sync: string, ghost client: Reader)
      requires bus.Valid() && bus.clock <= now && since == HeaderSince(client.cursor.last)
      ensures this.bus == bus
      ensures
        var opening := Opened(NetOf(bus, client), now, sync);
        Value(opening) == opening
    {
      this.bus := bus;
      new;
      var receiver, replay := bus.SubscribeWithReplay(since, now);
      pos := receiver;
      frames := [READY];
      var i := 0;
      while i < |replay|
        invariant 0 <= i <= |replay|
        invariant pos == receiver && frames == [READY] + EventFrames(replay[..i])
      {
        assert EventFrames(replay[..i + 1]) == EventFrames(replay[..i]) + [EventFrame(replay[i])];
        frames := frames + [EventFrame(replay[i])];
        i := i + 1;
      }
      assert replay[..i] == replay;
      frames := frames + [SyncFrame(sync)];
    }

    /** One turn of the live loop: the next event as a frame, or, for a receiver that fell behind the
        channel, a baseline without an id. */
    method Next(sync: string, ghost c: Conn)
      requires bus.Valid() && pos < |bus.sent|
      modifies this
      ensures Value(c) == Served(old(Value(c)), Wires(bus.sent), sync)
    {
      hide BufferOk, Stamp;
      if |bus.sent| - pos > CAPACITY {
        pos := |bus.sent| - CAPACITY;
        frames := frames + [SyncFrame(sync)];
      } else {
        frames := frames + [EventFrame(bus.sent[pos])];
        pos := pos + 1;
      }
    }

    method CatchUp(sync: string, ghost c: Conn)
      requires bus.Valid() && pos <= |bus.sent|
      modifies this
      ensures pos == |bus.sent|
      ensures Value(c) == ServeAll(old(Value(c)), Wires(bus.sent), sync)
    {
      hide BufferOk, Stamp, Served;
      ghost var start := Value(c);
      while pos < |bus.sent|
        invariant pos <= |bus.sent|
        invariant ServeAll(start, Wires(bus.sent), sync) == ServeAll(Value(c), Wires(bus.sent), sync)
      {
        ServedMovesOn(Value(c), Wires(bus.sent), sync);
        Next(sync, c);
      }
    }
  }

  lemma ServedMovesOn(c: Conn, sent: seq<Wire>, sync: string)
    requires c.pos < |sent|
    ensures c.pos < Served(c, sent, sync).pos <= |sent|
  {
  }

  function Stamps(sent: seq<Wire>, from: nat): seq<Stamped<Wire>>
    requires from <= |sent|
  {
    seq(|sent| - from, i requires 0 <= i < |sent| - from => Stamped(from + i + 1, sent[from + i]))
  }

  /** All the live loop writes until it has caught up: every event still in the channel, after one
      baseline if some were lost. */
  lemma {:induction false} CatchingUpWritesTheRest(c: Conn, sent: seq<Wire>, sync: string)
    requires c.pos <= |sent|
    ensures
      var lost, all := |sent| - c.pos > CAPACITY, ServeAll(c, sent, sync);
      && all.pos == |sent|
      && all.frames == c.frames + (if lost then [SyncFrame(sync)] else [])
                       + EventFrames(Stamps(sent, if lost then |sent| - CAPACITY else c.pos))
    decreases |sent| - c.pos
  {
    if c.pos < |sent| {
      var next := Served(c, sent, sync);
      CatchingUpWritesTheRest(next, sent, sync);
      if |sent| - c.pos <= CAPACITY {
        var frame := EventFrame(Stamped(c.pos + 1, sent[c.pos]));
        assert EventFrames(Stamps(sent, c.pos)) == [frame] + EventFrames(Stamps(sent, c.pos + 1));
        assert c.frames + [frame] + [] + EventFrames(Stamps(sent, c.pos + 1))
            == c.frames + [] + ([frame] + EventFrames(Stamps(sent, c.pos + 1)));
      } else {
        assert c.frames + [SyncFrame(sync)] + [] == c.frames + [SyncFrame(sync)];
      }
    } else {
      assert EventFrames(Stamps(sent, |sent|)) == [];
      assert c.frames + [] + [] == c.frames;
    }
  }
}
