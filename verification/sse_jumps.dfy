/** No silent gap on a connection: where ids jump, the server has said so. */
module SseJumps {
  import opened History
  import opened SseText
  import opened SseSessions

  predicate CarriesId(f: Frame) {
    f.Frame? && f.id.Some?
  }

  predicate IsSync(f: Frame) {
    f.Frame? && f.id.None? && f.name == "sync"
  }

  /** Between two successive frames with ids, either the ids are successive too or a baseline stands. */
  predicate NoSilentJump(frames: seq<Frame>) {
    forall i, j :: 0 <= i < j < |frames| && Successive(frames, i, j) ==>
      frames[j].id.value == frames[i].id.value + 1 || exists k :: i < k < j && IsSync(frames[k])
  }

  /** Frames `i` and `j` carry ids and none between them does. */
  predicate Successive(frames: seq<Frame>, i: nat, j: nat)
    requires i < j < |frames|
  {
    CarriesId(frames[i]) && CarriesId(frames[j]) && forall k :: i < k < j ==> !CarriesId(frames[k])
  }

  /** The receiver stands at the last id written, unless a baseline has been written since. */
  predicate Announced(frames: seq<Frame>, pos: nat) {
    forall i :: 0 <= i < |frames| && CarriesId(frames[i]) && (forall k :: i < k < |frames| ==> !CarriesId(frames[k])) ==>
      frames[i].id.value == pos || exists k :: i < k < |frames| && IsSync(frames[k])
  }

  lemma {:induction false} JumpsAfterOne(frames: seq<Frame>, f: Frame, pos: nat)
    requires NoSilentJump(frames) && Announced(frames, pos) && (CarriesId(f) ==> f.id.value == pos + 1)
    ensures NoSilentJump(frames + [f])
    ensures IsSync(f) ==> forall p: nat :: Announced(frames + [f], p)
    ensures Announced(frames + [f], if CarriesId(f) then pos + 1 else pos)
  {
    var more, n := frames + [f], |frames|;
    forall i, j | 0 <= i < j < |more| && Successive(more, i, j)
      ensures more[j].id.value == more[i].id.value + 1 || exists k :: i < k < j && IsSync(more[k])
    {
      if j < n {
        assert forall k :: i < k < j ==> frames[k] == more[k];
        assert Successive(frames, i, j);
        JumpBetween(frames, more, i, j, pos);
      } else {
        assert forall k :: i < k < n ==> frames[k] == more[k] && !CarriesId(frames[k]);
        JumpToEnd(frames, more, i, pos);
      }
    }
    forall i | 0 <= i < n && CarriesId(more[i]) && (forall k :: i < k < |more| ==> !CarriesId(more[k]))
      ensures !CarriesId(f) && (more[i].id.value == pos || exists k :: i < k < |more| && IsSync(more[k]))
    {
      assert more[n] == f;
      assert forall k :: i < k < n ==> frames[k] == more[k] && !CarriesId(frames[k]);
      JumpToEnd(frames, more, i, pos);
    }
    if IsSync(f) {
      assert more[n] == f;
    }
  }

  lemma JumpBetween(frames: seq<Frame>, more: seq<Frame>, i: nat, j: nat, pos: nat)
    requires i < j < |frames| <= |more| && frames == more[..|frames|] && NoSilentJump(frames) && Successive(frames, i, j)
    ensures more[j].id.value == more[i].id.value + 1 || exists k :: i < k < j && IsSync(more[k])
  {
    if more[j].id.value != more[i].id.value + 1 {
      var k :| i < k < j && IsSync(frames[k]);
      assert more[k] == frames[k];
    }
  }

  lemma JumpToEnd(frames: seq<Frame>, more: seq<Frame>, i: nat, pos: nat)
    requires i < |frames| <= |more| && frames == more[..|frames|] && Announced(frames, pos)
    requires CarriesId(frames[i]) && forall k :: i < k < |frames| ==> !CarriesId(frames[k])
    ensures more[i].id.value == pos || exists k :: i < k < |frames| && IsSync(more[k])
  {
    if more[i].id.value != pos {
      var k :| i < k < |frames| && IsSync(frames[k]);
      assert more[k] == frames[k];
    }
  }

  lemma {:induction false} JumpsOfReplay(events: seq<Stamped<Wire>>, pos: nat)
    requires |events| <= pos
    requires forall i :: 0 <= i < |events| ==> events[i].id == pos - |events| + i + 1
    ensures NoSilentJump([READY] + EventFrames(events)) && Announced([READY] + EventFrames(events), pos)
  {
    var frames := [READY] + EventFrames(events);
    if events == [] {
      assert frames == [READY];
    } else {
      var init, last := events[..|events| - 1], events[|events| - 1];
      JumpsOfReplay(init, pos - 1);
      assert frames == [READY] + EventFrames(init) + [EventFrame(last)];
      JumpsAfterOne([READY] + EventFrames(init), EventFrame(last), pos - 1);
    }
  }

  predicate JumpsOk(s: Net) {
    s.conn.Some? ==> NoSilentJump(s.conn.value.frames) && Announced(s.conn.value.frames, s.conn.value.pos)
  }

  lemma JumpsStep(s: Net, a: Action)
    requires Inv(s) && JumpsOk(s) && Enabled(s, a)
    ensures JumpsOk(Do(s, a))
  {
    hide NoSilentJump, Announced, Render, Scan;
    match a
    case Connect(now, sync) =>
      var since := HeaderSince(s.reader.cursor.last);
      var replay := ReplaySince(s.buffer.items, since, now);
      ReplayElements(s, since, now);
      JumpsOfReplay(replay, |s.sent|);
      JumpsAfterOne([READY] + EventFrames(replay), SyncFrame(sync), |s.sent|);
    case Serve(sync) =>
      var c := s.conn.value;
      JumpsAfterOne(c.frames, SyncFrame(sync), c.pos);
      JumpsAfterOne(c.frames, EventFrame(Stamped(c.pos + 1, s.sent[c.pos])), c.pos);
    case KeepAlive => JumpsAfterOne(s.conn.value.frames, Ping, s.conn.value.pos);
    case _ =>
  }

  /** On any connection of any run, even with lag and cleared history, a jump between successive ids is
      announced by a baseline frame between them. */
  lemma {:induction false} JumpsAreAnnounced(states: seq<Net>, actions: seq<Action>, i: nat)
    requires Run(states, actions) && i < |states|
    ensures JumpsOk(states[i])
  {
    if i > 0 {
      JumpsAreAnnounced(states, actions, i - 1);
      EveryStateIsSound(states, actions, i - 1);
      JumpsStep(states[i - 1], actions[i - 1]);
    }
  }
}
