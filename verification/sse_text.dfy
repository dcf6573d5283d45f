/** Event stream text: the frames the server writes (`src/server/handlers/push_events.rs`) and the
    line parser of the client (`clients/rust/src/client.rs`). */
module SseText {
  import opened Wrappers
  import opened Decimals

  // ---- frames --------------------------------------------------------------------------------

  /** A frame of the stream. A keep-alive comment carries nothing. */
  datatype Frame = Frame(id: Option<nat>, name: string, data: string) | Ping

  predicate OneLine(s: string) {
    '\n' !in s
  }

  predicate FrameOk(f: Frame) {
    f.Frame? ==> OneLine(f.name) && OneLine(f.data) && (f.id.Some? ==> f.id.value <= U64_MAX)
  }

  /** The lines of a frame, in the order its fields are set, and the empty line that ends it. */
  function LinesOf(f: Frame): seq<string> {
    match f
    case Ping => [": ping", ""]
    case Frame(None, name, data) => ["event: " + name, "data: " + data, ""]
    case Frame(Some(id), name, data) => ["id: " + Print(id), "event: " + name, "data: " + data, ""]
  }

  function AllLines(frames: seq<Frame>): seq<string> {
    if frames == [] then [] else AllLines(frames[..|frames| - 1]) + LinesOf(frames[|frames| - 1])
  }

  function Join(lines: seq<string>): string {
    if lines == [] then "" else Join(lines[..|lines| - 1]) + (lines[|lines| - 1] + "\n")
  }

  lemma LastOff<T>(a: seq<T>, b: seq<T>)
    requires b != []
    ensures b == b[..|b| - 1] + [b[|b| - 1]] && a + b == (a + b[..|b| - 1]) + [b[|b| - 1]]
  {
  }

  lemma JoinMore(lines: seq<string>, last: string)
    ensures Join(lines + [last]) == Join(lines) + (last + "\n")
  {
    assert (lines + [last])[..|lines|] == lines;
  }

  lemma {:induction false} JoinConcat(a: seq<string>, b: seq<string>)
    ensures Join(a + b) == Join(a) + Join(b)
  {
    if b == [] {
      assert a + b == a;
    } else {
      hide Join;
      var init, last := b[..|b| - 1], b[|b| - 1];
      JoinConcat(a, init);
      LastOff(a, b);
      JoinMore(a + init, last);
      JoinMore(init, last);
      assert Join(a) + Join(init) + (last + "\n") == Join(a) + (Join(init) + (last + "\n"));
    }
  }

  /** A frame on the wire: its id if it has one, its name and its data, a line each, and an empty line. */
  lemma FrameText(f: Frame)
    ensures
      Render([f]) ==
      match f
      case Ping => ": ping" + "\n" + "" + "\n"
      case Frame(None, name, data) => "event: " + name + "\n" + ("data: " + data) + "\n" + "" + "\n"
      case Frame(Some(id), name, data) => "id: " + Print(id) + "\n" + ("event: " + name) + "\n" + ("data: " + data) + "\n" + "" + "\n"
  {
    RenderOne(f);
    hide Render, Join, Print;
    match f
    case Ping => JoinOfTwo(": ping", "");
    case Frame(None, name, data) => JoinOfThree("event: " + name, "data: " + data, "");
    case Frame(Some(id), name, data) => JoinOfFour("id: " + Print(id), "event: " + name, "data: " + data, "");
  }

  lemma RenderOne(f: Frame)
    ensures Render([f]) == Join(LinesOf(f))
  {
    hide LinesOf, Join;
    assert [f][..0] == [] && AllLines([f]) == [] + LinesOf(f) == LinesOf(f);
  }

  lemma JoinOfTwo(a: string, b: string)
    ensures Join([a, b]) == a + "\n" + b + "\n"
  {
    assert [a, b][..1] == [a] && [a][..0] == [];
    assert Join([a]) == "" + (a + "\n") == a + "\n";
    assert a + "\n" + (b + "\n") == a + "\n" + b + "\n";
  }

  lemma JoinOfThree(a: string, b: string, c: string)
    ensures Join([a, b, c]) == a + "\n" + b + "\n" + c + "\n"
  {
    JoinOfTwo(a, b);
    assert [a, b, c] == [a, b] + [c];
    hide Join;
    JoinMore([a, b], c);
    assert a + "\n" + b + "\n" + (c + "\n") == a + "\n" + b + "\n" + c + "\n";
  }

  lemma JoinOfFour(a: string, b: string, c: string, d: string)
    ensures Join([a, b, c, d]) == a + "\n" + b + "\n" + c + "\n" + d + "\n"
  {
    hide Join;
    JoinOfThree(a, b, c);
    assert [a, b, c, d] == [a, b, c] + [d];
    JoinMore([a, b, c], d);
    assert a + "\n" + b + "\n" + c + "\n" + (d + "\n") == a + "\n" + b + "\n" + c + "\n" + d + "\n";
  }

  /** Frames already written stay as they are when more follow. */
  lemma RenderMore(frames: seq<Frame>, f: Frame)
    ensures Render(frames) <= Render(frames + [f])
  {
    assert (frames + [f])[..|frames|] == frames;
    JoinConcat(AllLines(frames), LinesOf(f));
  }

  /** What the server writes for these frames. */
  function Render(frames: seq<Frame>): string {
    Join(AllLines(frames))
  }

  // ---- the client's line parser ------------------------------------------------------------------

  /** `SseFrameState`: the id waiting for its data line, and the replay cursor. */
  datatype Cursor = Cursor(pending: Option<nat>, last: Option<nat>)

  /** What the stream hands to its caller: the payload, and the id that was committed with it. */
  datatype Yield = Yield(id: Option<nat>, data: string)

  function Feed(c: Cursor, line: string): (fed: (Cursor, Option<Yield>)) {
    if "id:" <= line then
      var id := ParseU64(Trim(line[3..]));
      (if id.Some? then Cursor(id, c.last) else c, None)
    else if "data:" <= line then
      var rest := line[5..];
      (Cursor(None, if c.pending.Some? then c.pending else c.last),
       Some(Yield(c.pending, if " " <= rest then rest[1..] else rest)))
    else (c, None)
  }

  /** The reading side of one connection: the partial line, the parser, and all that was handed out. */
  datatype Reader = Reader(line: string, cursor: Cursor, handed: seq<Yield>)

  function EndLine(r: Reader): Reader {
    var (c, item) := Feed(r.cursor, r.line);
    Reader("", c, if item.Some? then r.handed + [item.value] else r.handed)
  }

  function Put(r: Reader, c: char): Reader {
    if c == '\n' then EndLine(r) else r.(line := r.line + [c])
  }

  function Scan(r: Reader, text: string): Reader {
    if text == [] then r else Put(Scan(r, text[..|text| - 1]), text[|text| - 1])
  }

  /** Chunk boundaries do not matter: only the concatenation of what arrived does. */
  lemma {:induction false} ScanConcat(r: Reader, a: string, b: string)
    ensures Scan(r, a + b) == Scan(Scan(r, a), b)
  {
    hide Put;
    if b == [] {
      assert a + b == a;
    } else {
      hide Scan;
      var init, last := b[..|b| - 1], b[|b| - 1];
      ScanConcat(r, a, init);
      LastOff(a, b);
      ScanMore(r, a + init, last);
      ScanMore(Scan(r, a), init, last);
    }
  }

  lemma ScanMore(r: Reader, text: string, c: char)
    ensures Scan(r, text + [c]) == Put(Scan(r, text), c)
  {
    hide Put;
    assert (text + [c])[..|text|] == text;
  }

  lemma {:induction false} ScanPartial(r: Reader, text: string)
    requires OneLine(text)
    ensures Scan(r, text) == r.(line := r.line + text)
  {
    if text == [] {
      assert r.line + text == r.line;
    } else {
      var n := |text| - 1;
      ScanPartial(r, text[..n]);
      assert text == text[..n] + [text[n]];
      assert r.line + text[..n] + [text[n]] == r.line + text;
    }
  }

  /** A complete line ends in the parser; the part of it that has arrived does nothing yet. */
  lemma ScanLine(r: Reader, line: string, n: nat)
    requires OneLine(line) && r.line == "" && n <= |line| + 1
    ensures Scan(r, (line + "\n")[..n]) == if n == |line| + 1 then EndLine(r.(line := line)) else r.(line := line[..n])
  {
    var text := line + "\n";
    assert "" + line == line && "" + line[..Min(n, |line|)] == line[..Min(n, |line|)];
    if n == |line| + 1 {
      assert text[..n] == text && text[..|text| - 1] == line;
      ScanPartial(r, line);
    } else {
      assert text[..n] == line[..n];
      ScanPartial(r, line[..n]);
    }
  }

  /** The reader after these lines, from the start of a line. */
  function AfterLines(r: Reader, lines: seq<string>): Reader {
    if lines == [] then r
    else EndLine(AfterLines(r, lines[..|lines| - 1]).(line := lines[|lines| - 1]))
  }

  predicate AllOneLine(lines: seq<string>) {
    forall l :: l in lines ==> OneLine(l)
  }

  lemma {:induction false} ScanLines(r: Reader, lines: seq<string>)
    requires AllOneLine(lines) && r.line == ""
    ensures Scan(r, Join(lines)) == AfterLines(r, lines) && AfterLines(r, lines).line == ""
  {
    if lines != [] {
      var init, last := lines[..|lines| - 1], lines[|lines| - 1];
      ScanLines(r, init);
      ScanConcat(r, Join(init), last + "\n");
      ScanLine(AfterLines(r, init), last, |last| + 1);
      assert (last + "\n")[..|last| + 1] == last + "\n";
    }
  }

  /** How many lines are complete when only the first `n` characters have arrived. */
  function LinesWithin(lines: seq<string>, n: nat): (k: nat)
    requires n <= |Join(lines)|
    ensures k <= |lines|
  {
    if lines == [] || n == |Join(lines)| then |lines| else
      var init := lines[..|lines| - 1];
      if n <= |Join(init)| then LinesWithin(init, n) else |init|
  }

  /** Wherever the stream is cut, the reader has seen exactly the complete lines. */
  lemma {:induction false} ScanCut(r: Reader, lines: seq<string>, n: nat)
    requires AllOneLine(lines) && r.line == "" && n <= |Join(lines)|
    ensures
      var cut, whole := Scan(r, Join(lines)[..n]), AfterLines(r, lines[..LinesWithin(lines, n)]);
      cut.cursor == whole.cursor && cut.handed == whole.handed
  {
    hide EndLine, Scan, OneLine;
    if n == |Join(lines)| {
      assert Join(lines)[..n] == Join(lines) && lines[..|lines|] == lines;
      ScanLines(r, lines);
    } else {
      var init, last := lines[..|lines| - 1], lines[|lines| - 1];
      if n <= |Join(init)| {
        ScanCut(r, init, n);
        assert Join(lines)[..n] == Join(init)[..n];
        assert lines[..LinesWithin(init, n)] == init[..LinesWithin(init, n)];
      } else {
        var part := (last + "\n")[..n - |Join(init)|];
        assert Join(lines)[..n] == Join(init) + part;
        ScanConcat(r, Join(init), part);
        ScanLines(r, init);
        ScanLine(AfterLines(r, init), last, n - |Join(init)|);
      }
    }
  }

  // ---- frame by frame ---------------------------------------------------------------------------

  /** What a client gets out of one whole frame. */
  function Take(r: Reader, f: Frame): Reader {
    match f
    case Ping => r
    case Frame(id, _, data) =>
      Reader(r.line, Cursor(None, if id.Some? then id else r.cursor.last), r.handed + [Yield(id, data)])
  }

  function TakeAll(r: Reader, frames: seq<Frame>): Reader {
    if frames == [] then r else Take(TakeAll(r, frames[..|frames| - 1]), frames[|frames| - 1])
  }

  predicate AtFrame(r: Reader) {
    r.line == "" && r.cursor.pending == None
  }

  /** The same cursor and the same items: what lasts when a connection is cut. */
  predicate SameKept(a: Reader, b: Reader) {
    a.cursor.last == b.cursor.last && a.handed == b.handed
  }

  lemma FeedOther(c: Cursor, name: string)
    ensures Feed(c, "") == (c, None)
    ensures Feed(c, ": ping") == (c, None)
    ensures Feed(c, "event: " + name) == (c, None)
  {
    assert ("event: " + name)[0] == 'e' && ": ping"[0] == ':';
    assert forall s: string :: ("id:" <= s ==> s[0] == 'i') && ("data:" <= s ==> s[0] == 'd');
  }

  lemma FeedId(c: Cursor, id: nat)
    requires id <= U64_MAX
    ensures Feed(c, "id: " + Print(id)) == (Cursor(Some(id), c.last), None)
  {
    var line := "id: " + Print(id);
    assert line[3..] == " " + Print(id);
    TrimOfPrint(id);
    ParseOfPrint(id);
  }

  lemma FeedData(c: Cursor, data: string)
    ensures Feed(c, "data: " + data)
         == (Cursor(None, if c.pending.Some? then c.pending else c.last), Some(Yield(c.pending, data)))
  {
    var line := "data: " + data;
    assert line[0] == 'd' && line[5..] == " " + data;
    assert (" " + data)[1..] == data;
  }

  lemma AfterMore(r: Reader, lines: seq<string>, more: string)
    ensures AfterLines(r, lines + [more]) == EndLine(AfterLines(r, lines).(line := more))
  {
    assert (lines + [more])[..|lines|] == lines;
  }

  lemma AfterNothing(r: Reader)
    ensures AfterLines(r, []) == r
  {
    hide EndLine;
  }

  lemma {:induction false} AfterConcat(r: Reader, a: seq<string>, b: seq<string>)
    ensures AfterLines(r, a + b) == AfterLines(AfterLines(r, a), b)
  {
    hide AfterLines, EndLine;
    if b == [] {
      assert a + b == a;
      AfterNothing(AfterLines(r, a));
    } else {
      var init, last := b[..|b| - 1], b[|b| - 1];
      AfterConcat(r, a, init);
      LastOff(a, b);
      AfterMore(r, a + init, last);
      AfterMore(AfterLines(r, a), init, last);
    }
  }

  /** Before its data line a frame hands nothing out and moves no cursor; with it, everything happens. */
  lemma AfterPartOfFrame(r: Reader, f: Frame, k: nat)
    requires AtFrame(r) && FrameOk(f) && k <= |LinesOf(f)|
    ensures
      var cut := AfterLines(r, LinesOf(f)[..k]);
      && (SameKept(cut, r) || SameKept(cut, Take(r, f)))
      && (k == |LinesOf(f)| ==> cut == Take(r, f))
  {
    hide Feed;
    match f
    case Ping =>
      PartOfTwo(r, ": ping", "", k);
    case Frame(None, name, data) =>
      PartOfThree(r, name, data, k);
    case Frame(Some(id), name, data) =>
      var lines := LinesOf(f);
      if k > 0 {
        FeedId(r.cursor, id);
        assert lines[..k] == [lines[0]] + lines[1..][..k - 1];
        AfterConcat(r, [lines[0]], lines[1..][..k - 1]);
        assert AfterLines(r, [lines[0]]) == EndLine(AfterLines(r, [lines[0]][..0]).(line := lines[0]));
        assert lines[1..] == ["event: " + name, "data: " + data, ""];
        PartOfThree(r.(cursor := Cursor(Some(id), r.cursor.last)), name, data, k - 1);
      }
  }

  lemma PartOfTwo(r: Reader, a: string, b: string, k: nat)
    requires r.line == "" && k <= 2 && a == ": ping" && b == ""
    ensures AfterLines(r, [a, b][..k]) == r
  {
    FeedOther(r.cursor, "");
    hide Feed;
    assert [a, b][..1] == [a] && [a, b][..2] == [a] + [b] && [a][..0] == [];
    AfterMore(r, [a], b);
  }

  lemma PartOfThree(r: Reader, name: string, data: string, k: nat)
    requires r.line == "" && k <= 3
    ensures
      var cut := AfterLines(r, ["event: " + name, "data: " + data, ""][..k]);
      if k < 2 then cut == r
      else cut == Reader("", Cursor(None, if r.cursor.pending.Some? then r.cursor.pending else r.cursor.last),
                         r.handed + [Yield(r.cursor.pending, data)])
  {
    hide Feed;
    FeedOther(r.cursor, name);
    FeedData(r.cursor, data);
    FeedOther(Feed(r.cursor, "data: " + data).0, name);
    AfterThree(r, "event: " + name, "data: " + data, "", k);
  }

  /** Three lines of which the first and the last change nothing. */
  lemma AfterThree(r: Reader, a: string, b: string, c: string, k: nat)
    requires r.line == "" && k <= 3
    requires Feed(r.cursor, a) == (r.cursor, None) && Feed(r.cursor, b).1.Some?
    requires Feed(Feed(r.cursor, b).0, c) == (Feed(r.cursor, b).0, None)
    ensures
      var cut := AfterLines(r, [a, b, c][..k]);
      cut == if k < 2 then r else Reader("", Feed(r.cursor, b).0, r.handed + [Feed(r.cursor, b).1.value])
  {
    hide Feed;
    assert [a, b, c][..0] == [] && [a, b, c][..1] == [] + [a] && [a, b, c][..2] == [a] + [b] && [a, b, c][..3] == [a, b] + [c];
    AfterMore(r, [], a);
    AfterMore(r, [a], b);
    AfterMore(r, [a, b], c);
  }

  predicate FramesOk(frames: seq<Frame>) {
    forall f :: f in frames ==> FrameOk(f)
  }

  lemma {:induction false} WholeFrames(r: Reader, frames: seq<Frame>)
    requires AtFrame(r) && FramesOk(frames)
    ensures AfterLines(r, AllLines(frames)) == TakeAll(r, frames) && AtFrame(TakeAll(r, frames))
  {
    hide EndLine, LinesOf, FrameOk;
    if frames != [] {
      var init, last := frames[..|frames| - 1], frames[|frames| - 1];
      WholeFrames(r, init);
      AfterConcat(r, AllLines(init), LinesOf(last));
      AfterPartOfFrame(TakeAll(r, init), last, |LinesOf(last)|);
      assert LinesOf(last)[..|LinesOf(last)|] == LinesOf(last);
    }
  }

  /** How many frames have handed out their item when `k` lines are complete. */
  lemma {:induction false} FramesWithin(r: Reader, frames: seq<Frame>, k: nat) returns (j: nat)
    requires AtFrame(r) && FramesOk(frames) && k <= |AllLines(frames)|
    ensures j <= |frames| && SameKept(AfterLines(r, AllLines(frames)[..k]), TakeAll(r, frames[..j]))
  {
    hide EndLine, LinesOf, FrameOk;
    if frames == [] {
      j := 0;
    } else {
      var init, last := frames[..|frames| - 1], frames[|frames| - 1];
      var lines := AllLines(init);
      if k <= |lines| {
        j := FramesWithin(r, init, k);
        assert AllLines(frames)[..k] == lines[..k] && frames[..j] == init[..j];
      } else {
        var part := LinesOf(last)[..k - |lines|];
        WholeFrames(r, init);
        assert AllLines(frames)[..k] == lines + part;
        AfterConcat(r, lines, part);
        AfterPartOfFrame(TakeAll(r, init), last, k - |lines|);
        assert frames[..|frames|] == frames;
        j := if SameKept(AfterLines(TakeAll(r, init), part), TakeAll(r, init)) then |init| else |frames|;
      }
    }
  }

  lemma {:induction false} LinesStayWhole(frames: seq<Frame>)
    requires FramesOk(frames)
    ensures AllOneLine(AllLines(frames))
  {
    if frames != [] {
      LinesStayWhole(frames[..|frames| - 1]);
      var f := frames[|frames| - 1];
      assert f in frames;
      forall l | l in LinesOf(f) ensures OneLine(l) {
        if f.Frame? && f.id.Some? && l == LinesOf(f)[0] {
          assert forall c :: c in Print(f.id.value) ==> IsDigit(c);
        }
      }
    }
  }

  /** Wherever a connection is cut, mid-line or between the id and its data, what the client keeps is
      what a whole number of frames gave it. */
  lemma CutKeepsWholeFrames(r: Reader, frames: seq<Frame>, n: nat) returns (j: nat)
    requires AtFrame(r) && FramesOk(frames) && n <= |Render(frames)|
    ensures j <= |frames| && SameKept(Scan(r, Render(frames)[..n]), TakeAll(r, frames[..j]))
    ensures n == |Render(frames)| ==> SameKept(Scan(r, Render(frames)), TakeAll(r, frames))
  {
    var lines := AllLines(frames);
    LinesStayWhole(frames);
    hide Feed, EndLine, LinesOf, FrameOk, Scan, AfterLines, Render;
    ScanCut(r, lines, n);
    ScanLines(r, lines);
    WholeFrames(r, frames);
    j := FramesWithin(r, frames, LinesWithin(lines, n));
    assert lines[..|lines|] == lines && Render(frames)[..|Render(frames)|] == Render(frames);
  }
}
