/** Replay buffer and event bus (`src/sync/history.rs`).

    A clock reading is a natural number of milliseconds that never runs backwards. */
module History {
  import opened Wrappers

  const MAX: nat := 1000
  const TTL: nat := 600_000

  datatype Item<T> = Item(id: nat, at: nat, event: T)
  datatype Stamped<T> = Stamped(id: nat, event: T)

  /** The buffer as a value: what is kept, and the last id ever given out. */
  datatype Buffer<T> = Buffer(items: seq<Item<T>>, lastId: nat)

  /** Ids are contiguous and end at `lastId`, at most `MAX` are kept, times never decrease. */
  ghost predicate BufferOk<T>(b: Buffer<T>, now: nat) {
    && |b.items| <= MAX
    && |b.items| <= b.lastId
    && (forall i :: 0 <= i < |b.items| ==> b.items[i].id == b.lastId - |b.items| + 1 + i)
    && (forall i, j :: 0 <= i <= j < |b.items| ==> b.items[i].at <= b.items[j].at)
    && (forall i :: 0 <= i < |b.items| ==> b.items[i].at <= now)
  }

  function Append<T>(b: Buffer<T>, event: T, now: nat): Buffer<T> {
    var grown := b.items + [Item(b.lastId + 1, now, event)];
    Buffer(if |grown| > MAX then grown[|grown| - MAX..] else grown, b.lastId + 1)
  }

  function Clear<T>(b: Buffer<T>): Buffer<T> {
    b.(items := [])
  }

  /** Buffered events above `since` that are younger than `TTL`. */
  function ReplaySince<T>(items: seq<Item<T>>, since: nat, now: nat): seq<Stamped<T>> {
    if items == [] then []
    else
      var rest := ReplaySince(items[1..], since, now);
      if items[0].id > since && now < items[0].at + TTL then [Stamped(items[0].id, items[0].event)] + rest else rest
  }

  function Stamp<T>(items: seq<Item<T>>): seq<Stamped<T>> {
    seq(|items|, i requires 0 <= i < |items| => Stamped(items[i].id, items[i].event))
  }

  lemma GrownStaysOrdered<T>(b: Buffer<T>, event: T, now: nat, later: nat)
    requires BufferOk(b, now) && now <= later
    ensures Stepwise(b.items + [Item(b.lastId + 1, later, event)], b.lastId + 1, later)
  {
    var grown := b.items + [Item(b.lastId + 1, later, event)];
    forall i, j | 0 <= i <= j < |grown| ensures grown[i].at <= grown[j].at {
      if j == |b.items| && i < j {
        assert b.items[i].at <= now;
      }
    }
  }

  /** The order of `BufferOk`, without its bounds on the length. */
  ghost predicate Stepwise<T>(items: seq<Item<T>>, lastId: nat, now: nat) {
    && (forall i :: 0 <= i < |items| ==> items[i].id == lastId - |items| + 1 + i && items[i].at <= now)
    && (forall i, j :: 0 <= i <= j < |items| ==> items[i].at <= items[j].at)
  }

  lemma TailStaysOrdered<T>(items: seq<Item<T>>, k: nat, lastId: nat, now: nat)
    requires k <= |items| && Stepwise(items, lastId, now)
    ensures Stepwise(items[k..], lastId, now)
  {
    var tail := items[k..];
    forall i, j | 0 <= i <= j < |tail| ensures tail[i].at <= tail[j].at {
      assert items[k + i].at <= items[k + j].at;
    }
  }

  /** One more event: while there is room nothing is dropped, then the oldest alone; what is kept stays as it
      is, and the new event comes last, under the next id. */
  ghost predicate KeepsTheLatest<T>(b: Buffer<T>, b': Buffer<T>, event: T, now: nat) {
    var kept := Min(|b.items|, MAX - 1);
    && |b'.items| == kept + 1 && b'.lastId == b.lastId + 1
    && b'.items[..kept] == b.items[|b.items| - kept..]
    && b'.items[kept] == Item(b.lastId + 1, now, event)
  }

  lemma AppendKeepsTheLatest<T>(b: Buffer<T>, event: T, now: nat)
    requires |b.items| <= MAX
    ensures KeepsTheLatest(b, Append(b, event, now), event, now)
  {
    var grown := b.items + [Item(b.lastId + 1, now, event)];
    if |grown| > MAX {
      assert grown[1..][..MAX - 1] == b.items[1..];
    } else {
      assert grown[..|b.items|] == b.items[0..];
    }
  }

  lemma AppendKeepsOk<T>(b: Buffer<T>, event: T, now: nat, later: nat)
    requires BufferOk(b, now) && now <= later
    ensures BufferOk(Append(b, event, later), later)
  {
    var grown := b.items + [Item(b.lastId + 1, later, event)];
    GrownStaysOrdered(b, event, now, later);
    assert Stepwise(Append(b, event, later).items, b.lastId + 1, later) by {
      hide Stepwise;
      if |grown| > MAX {
        TailStaysOrdered(grown, |grown| - MAX, b.lastId + 1, later);
      }
    }
  }

  /** How many of the first items a replay leaves out. */
  ghost function Skipped<T>(items: seq<Item<T>>, since: nat, now: nat): (k: nat)
    ensures k <= |items|
  {
    if items == [] || (items[0].id > since && now < items[0].at + TTL) then 0
    else 1 + Skipped(items[1..], since, now)
  }

  /** A replay is a suffix of the buffer, because ids and times both ascend. */
  lemma {:induction false} ReplayIsSuffix<T>(b: Buffer<T>, since: nat, clock: nat, now: nat)
    requires BufferOk(b, clock)
    ensures ReplaySince(b.items, since, now) == Stamp(b.items[Skipped(b.items, since, now)..])
  {
    SuffixFrom(b.items, since, now);
  }

  lemma {:induction false} SuffixFrom<T>(items: seq<Item<T>>, since: nat, now: nat)
    requires forall i, j :: 0 <= i <= j < |items| ==> items[i].id <= items[j].id && items[i].at <= items[j].at
    ensures ReplaySince(items, since, now) == Stamp(items[Skipped(items, since, now)..])
    ensures Skipped(items, since, now) == 0 ==> ReplaySince(items, since, now) == Stamp(items)
    decreases |items|
  {
    if items != [] {
      SuffixFrom(items[1..], since, now);
      if items[0].id > since && now < items[0].at + TTL {
        if |items| > 1 {
          assert items[1].id > since && now < items[1].at + TTL;
        }
        assert Skipped(items[1..], since, now) == 0;
        assert Stamp(items) == [Stamped(items[0].id, items[0].event)] + Stamp(items[1..]);
        assert items[0..] == items;
      } else {
        assert items[1..][Skipped(items[1..], since, now)..] == items[Skipped(items, since, now)..];
      }
    }
  }

  class HistoryBuf<T> {
    var items: seq<Item<T>>
    var lastId: nat

    constructor ()
      ensures items == [] && lastId == 0
    {
      items, lastId := [], 0;
    }

    ghost function Value(): Buffer<T>
      reads this
    {
      Buffer(items, lastId)
    }

    method AppendEvent(event: T, now: nat) returns (id: nat)
      modifies this
      ensures Value() == Append(old(Value()), event, now)
      ensures id == lastId == old(lastId) + 1
      ensures old(|items|) <= MAX ==> KeepsTheLatest(old(Value()), Value(), event, now)
    {
      if |items| <= MAX {
        AppendKeepsTheLatest(Value(), event, now);
      }
      hide KeepsTheLatest;
      lastId := lastId + 1;
      items := items + [Item(lastId, now, event)];
      ghost var grown := items;
      while |items| > MAX
        invariant |items| >= MAX || items == grown
        invariant |items| <= |grown| && items == grown[|grown| - |items|..]
        invariant lastId == old(lastId) + 1
      {
        items := items[1..];
      }
      id := lastId;
    }

    method ClearItems()
      modifies this
      ensures Value() == Clear(old(Value()))
    {
      items := [];
    }

    method Replay(since: nat, now: nat) returns (replay: seq<Stamped<T>>)
      ensures replay == ReplaySince(items, since, now)
    {
      replay := [];
      var i := |items|;
      assert items[|items|..] == [];
      while i > 0
        invariant 0 <= i <= |items|
        invariant replay == ReplaySince(items[i..], since, now)
      {
        i := i - 1;
        assert items[i..][1..] == items[i + 1..];
        if items[i].id > since && now < items[i].at + TTL {
          replay := [Stamped(items[i].id, items[i].event)] + replay;
        }
      }
      assert items[0..] == items;
    }
  }

  /** If the buffer stamped is the end of what was sent, it still is after one more event. */
  lemma StampAfterAppend<T>(b: Buffer<T>, event: T, now: nat, later: nat, sent: seq<Stamped<T>>)
    requires BufferOk(b, now) && b.lastId == |sent| && Stamp(b.items) == sent[|sent| - |b.items|..]
    ensures
      var b', sent' := Append(b, event, later), sent + [Stamped(b.lastId + 1, event)];
      |b'.items| <= |sent'| && Stamp(b'.items) == sent'[|sent'| - |b'.items|..]
  {
    var grown := b.items + [Item(b.lastId + 1, later, event)];
    assert Stamp(grown) == Stamp(b.items) + [Stamped(b.lastId + 1, event)];
    assert forall k :: 0 <= k <= |grown| ==> Stamp(grown[k..]) == Stamp(grown)[k..];
  }

  /** The history and the broadcast channel behind one publishing face. `sent` is everything ever
      broadcast; a receiver is a position in it. */
  class EventBus<T> {
    const history: HistoryBuf<T>
    var sent: seq<Stamped<T>>
    ghost var clock: nat

    /** Every event was stamped with its place on the bus, and the buffer holds the latest ones. */
    ghost predicate Valid()
      reads this, history
    {
      && BufferOk(history.Value(), clock)
      && history.lastId == |sent|
      && (forall i :: 0 <= i < |sent| ==> sent[i].id == i + 1)
      && Stamp(history.items) == sent[|sent| - |history.items|..]
    }

    constructor ()
      ensures Valid() && fresh(history) && sent == []
    {
      history := new HistoryBuf<T>();
      sent := [];
      clock := 0;
    }

    method Publish(event: T, now: nat) returns (id: nat)
      requires Valid() && clock <= now
      modifies this, history
      ensures Valid() && clock == now
      ensures id == |sent| && sent == old(sent) + [Stamped(id, event)]
      ensures history.Value() == Append(old(history.Value()), event, now)
      ensures KeepsTheLatest(old(history.Value()), history.Value(), event, now)
    {
      assert |history.items| <= MAX;
      hide BufferOk, KeepsTheLatest, Append, Stamp;
      AppendKeepsOk(history.Value(), event, clock, now);
      StampAfterAppend(history.Value(), event, clock, now, sent);
      id := history.AppendEvent(event, now);
      sent := sent + [Stamped(id, event)];
      clock := now;
    }

    /** Subscribes and takes the replay under one history lock: the replay ends where the receiver starts. */
    method SubscribeWithReplay(since: nat, now: nat) returns (receiver: nat, replay: seq<Stamped<T>>)
      requires Valid() && clock <= now
      ensures receiver == |sent|
      ensures replay == ReplaySince(history.items, since, now)
      ensures exists from: nat :: from <= |sent| && replay == sent[from..]
    {
      receiver := |sent|;
      replay := history.Replay(since, now);
      ghost var k := Skipped(history.items, since, now);
      SuffixFrom(history.items, since, now);
      assert Stamp(history.items[k..]) == Stamp(history.items)[k..];
      assert replay == sent[|sent| - |history.items| + k..];
    }

    method ClearHistory()
      requires Valid()
      modifies history
      ensures Valid() && history.Value() == Clear(old(history.Value()))
    {
      history.ClearItems();
    }
  }
}
