/** The reading loop of the client's `watch` (`clients/rust/src/client.rs`). */
module SseClient {
  import opened Wrappers
  import opened Decimals
  import opened SseText

  class SseFrameState {
    var pendingId: Option<nat>
    var lastEventId: Option<nat>

    constructor ()
      ensures Value() == Cursor(None, None)
    {
      pendingId, lastEventId := None, None;
    }

    ghost function Value(): Cursor
      reads this
    {
      Cursor(pendingId, lastEventId)
    }

    /** A new connection drops the id the last one left waiting, and keeps the replay cursor. */
    method BeginConnection()
      modifies this
      ensures Value() == Cursor(None, old(Value()).last)
    {
      pendingId := None;
    }

    method FeedOne(line: string) returns (item: Option<string>)
      modifies this
      ensures
        var (cursor, handed) := Feed(old(Value()), line);
        Value() == cursor && item == if handed.Some? then Some(handed.value.data) else None
    {
      if "id:" <= line {
        var id := ParseU64(Trim(line[3..]));
        if id.Some? {
          pendingId := id;
        }
        return None;
      }
      if "data:" <= line {
        if pendingId.Some? {
          lastEventId := pendingId;
          pendingId := None;
        }
        var rest := line[5..];
        return Some(if " " <= rest then rest[1..] else rest);
      }
      return None;
    }
  }

  function Payloads(handed: seq<Yield>): seq<string> {
    seq(|handed|, i requires 0 <= i < |handed| => handed[i].data)
  }

  class EventStream {
    const sse: SseFrameState
    var buf: string
    ghost var handed: seq<Yield>

    constructor ()
      ensures Value() == Reader("", Cursor(None, None), []) && OneLine(buf) && fresh(sse)
    {
      sse := new SseFrameState();
      buf := "";
      handed := [];
    }

    ghost function Value(): Reader
      reads this, sse
    {
      Reader(buf, sse.Value(), handed)
    }

    method Connect()
      modifies this, sse
      ensures Value() == Reader("", Cursor(None, old(sse.lastEventId)), old(handed)) && OneLine(buf)
    {
      sse.BeginConnection();
      buf := "";
    }

    /** The reader as if nothing of the buffer had been seen yet. */
    ghost function Before(): Reader
      reads this, sse
    {
      Reader("", sse.Value(), handed)
    }

    /** Takes the first line out of the buffer. */
    method NextLine() returns (item: Option<string>)
      requires '\n' in buf
      modifies this, sse
      ensures Scan(Before(), buf) == Scan(old(Before()), old(buf)) && |buf| < |old(buf)|
      ensures if item.None? then handed == old(handed) else
                |handed| == |old(handed)| + 1 && handed == old(handed) + [handed[|old(handed)|]] && handed[|old(handed)|].data == item.value
    {
      hide Scan;
      var pos := LineEnd(buf);
      var line, rest := buf[..pos], buf[pos + 1..];
      ghost var from := Before();
      assert buf == (line + "\n") + rest && (line + "\n")[..pos + 1] == line + "\n";
      ScanConcat(from, line + "\n", rest);
      ScanLine(from, line, pos + 1);
      ghost var (_, next) := Feed(sse.Value(), line);
      item := sse.FeedOne(line);
      hide Feed;
      buf := rest;
      if item.Some? {
        handed := handed + [next.value];
      }
      assert Before() == EndLine(from.(line := line));
    }

    /** Takes in one chunk and hands out what its complete lines decode to. Whatever the chunk
        boundaries, the reader ends where reading the characters one by one would end. */
    method Absorb(chunk: string) returns (items: seq<string>)
      requires OneLine(buf)
      modifies this, sse
      ensures Value() == Scan(old(Value()), chunk) && OneLine(buf)
      ensures old(handed) <= handed && items == Payloads(handed[|old(handed)|..])
    {
      hide Scan;
      ghost var start := Value();
      ScanPartial(Before(), buf);
      assert "" + buf == buf;
      ScanConcat(Before(), buf, chunk);
      buf := buf + chunk;
      items := [];
      while '\n' in buf
        invariant Scan(Before(), buf) == Scan(start, chunk)
        invariant old(handed) <= handed && items == Payloads(handed[|old(handed)|..])
        decreases |buf|
      {
        ghost var already := handed;
        var item := NextLine();
        if item.Some? {
          items := items + [item.value];
          assert handed[|old(handed)|..] == already[|old(handed)|..] + [handed[|already|]];
        }
      }
      ScanPartial(Before(), buf);
      assert "" + buf == buf;
    }
  }

  method LineEnd(s: string) returns (pos: nat)
    requires '\n' in s
    ensures pos < |s| && s[pos] == '\n' && OneLine(s[..pos])
  {
    pos := 0;
    while s[pos] != '\n'
      invariant pos < |s| && OneLine(s[..pos])
      invariant '\n' in s[pos..]
      decreases |s| - pos
    {
      assert s[pos..] == [s[pos]] + s[pos + 1..];
      assert s[..pos + 1] == s[..pos] + [s[pos]];
      pos := pos + 1;
    }
  }
}
