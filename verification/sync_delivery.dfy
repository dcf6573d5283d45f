/** From a full build to nothing unread: what the engine promises over a whole life of the account, put
    together from the safety and the liveness of its runs. */
module SyncDelivery {
  import opened Index
  import opened SyncEngine
  import opened SyncTables
  import opened SyncRounds
  import opened SyncRuns
  import opened SyncLiveness

  // ---- a run of atomic passes is a run -----------------------------------------------------------------

  lemma AtomicNextIsNext(s: Sys, a: Action, s': Sys)
    requires SourceOk(s.src) && AtomicNext(s, a, s')
    ensures Next(s, a, s')
  {
  }

  lemma {:induction false} SourcesStayOk(states: seq<Sys>, actions: seq<Action>, i: nat)
    requires AtomicRun(states, actions) && SourceOk(states[0].src) && i < |states|
    ensures SourceOk(states[i].src)
  {
    hide SourceOk;
    if i > 0 {
      SourcesStayOk(states, actions, i - 1);
      assert AtomicNext(states[i - 1], actions[i - 1], states[i]);
    }
  }

  lemma AtomicRunIsRun(states: seq<Sys>, actions: seq<Action>)
    requires AtomicRun(states, actions) && SourceOk(states[0].src)
    ensures Run(states, actions)
  {
    forall i | 0 <= i < |actions| ensures Next(states[i], actions[i], states[i + 1]) {
      SourcesStayOk(states, actions, i);
      AtomicNextIsNext(states[i], actions[i], states[i + 1]);
    }
  }

  lemma {:induction false} StoppedStays(states: seq<Sys>, actions: seq<Action>, i: nat, j: nat)
    requires AtomicRun(states, actions) && i <= j < |states| && states[i].e.stopped
    ensures states[j].e.stopped
  {
    if i < j {
      StoppedStays(states, actions, i, j - 1);
      assert AtomicNext(states[j - 1], actions[j - 1], states[j]);
      if actions[j - 1].Polled? {
        PollApplies(states[j - 1].e, actions[j - 1].r);
      }
    }
  }

  /** An account that is registered at the end was never retired. */
  lemma NeverRetired(states: seq<Sys>, actions: seq<Action>)
    requires AtomicRun(states, actions) && !states[|actions|].e.stopped
    ensures forall a :: a in actions ==> a.Commit? || a.Polled?
  {
    forall a | a in actions ensures a.Commit? || a.Polled? {
      var i :| 0 <= i < |actions| && actions[i] == a;
      assert AtomicNext(states[i], a, states[i + 1]);
      if a.Retired? {
        StoppedStays(states, actions, i + 1, |actions|);
      }
    }
  }

  // ---- the passes after the last commit ---------------------------------------------------------------------

  lemma PassKeepsBoth(first: Engine, s: Sys, r: Round, t: TableId)
    requires SysOk(s) && AtomicRound(s.src, r.files) && s.e.wxid == first.wxid
    requires AnnouncedBetween(first, s.e, RowsOf(s.src, t), t)
    ensures
      var s' := Sys(Poll(s.e, r), s.src);
      SysOk(s') && s'.e.wxid == first.wxid && AnnouncedBetween(first, s'.e, RowsOf(s.src, t), t)
  {
    var s' := Sys(Poll(s.e, r), s.src);
    assert Next(s, Polled(r), s');
    hide SysOk, AnnouncedBetween, Next, AtomicRound, Poll;
    EveryRunIsConsistent([s, s'], [Polled(r)], 1);
    AnnouncedStep(first, s, Polled(r), s', t);
  }

  lemma {:induction false} PassesKeepBoth(first: Engine, s: Sys, rounds: seq<Round>, t: TableId)
    requires SysOk(s) && AnyPasses(s.src, rounds) && s.e.wxid == first.wxid
    requires AnnouncedBetween(first, s.e, RowsOf(s.src, t), t)
    ensures
      var end := Sys(AfterRounds(s.e, rounds), s.src);
      SysOk(end) && end.e.wxid == first.wxid && AnnouncedBetween(first, end.e, RowsOf(s.src, t), t)
    decreases |rounds|
  {
    if rounds != [] {
      AnyPassesRest(s.src, rounds);
      hide SysOk, AnnouncedBetween, AtomicRound, Poll;
      PassKeepsBoth(first, s, rounds[0], t);
      PassesKeepBoth(first, Sys(Poll(s.e, rounds[0]), s.src), rounds[1..], t);
    }
  }

  // ---- end to end --------------------------------------------------------------------------------------------

  /** The whole table is stored and announced: its ordinary rows, once each and in order, and of the incoming
      ones and the revocations those that came after the state `first`. */
  ghost predicate AllDelivered(first: Engine, e: Engine, rows: seq<Row>, t: TableId) {
    && MarkOf(e.store, t) == MarkAt(rows, |rows|)
    && OrdinaryRecords(HeldOf(e.store, t)) == ToRecords(Ordinary(rows), first.wxid)
    && Announced(e.log, t)
       == Announced(first.log, t) + Incoming(Ordinary(rows[Position(rows, MarkOf(first.store, t))..]), first.wxid)
    && Revoked(e.log, t) == Revoked(first.log, t) + Revocations(rows[Position(rows, MarkOf(first.store, t))..])
  }

  lemma CaughtUpDelivers(first: Engine, s: Sys, t: TableId)
    requires SysOk(s) && s.e.wxid == first.wxid && Backlog(s.e.store, s.src, t) == 0
    requires AnnouncedBetween(first, s.e, RowsOf(s.src, t), t)
    ensures AllDelivered(first, s.e, RowsOf(s.src, t), t)
  {
    var rows := RowsOf(s.src, t);
    assert Ascending(rows) && EntryOk(s.e, rows, t);
    CaughtUpEntry(s.e, rows, t);
    PositionOfMark(rows, |rows|);
    var n := Position(rows, MarkOf(first.store, t));
    assert rows[n..|rows|] == rows[n..];
  }

  /** Where a life begins: a full build that opened the file and read it whole, whatever was committed
      meanwhile. */
  ghost predicate BuiltWhole(e: Engine, full: FullRound, before: Source, after: Source, f: FileRound) {
    && !e.stopped && !full.retired && full.sections
    && SourceOk(after) && Sees(before, after, full.files)
    && f in full.files && ReadWhole(e, f, before, after)
  }

  lemma BuiltIsReady(e: Engine, full: FullRound, before: Source, after: Source, f: FileRound)
    requires BuiltWhole(e, full, before, after, f)
    ensures
      var start := Sys(FullSync(e, full), after);
      SysOk(start) && Fitting(start) && Watched(start, f.rel)
  {
    var i :| 0 <= i < |full.files| && full.files[i] == f;
    BuildStartsConsistent(e, full, before, after);
    BuildStartsTheWatch(e, full, before, after, i);
    EntriesFit(Sys(FullSync(e, full), after));
  }

  /** From the build to the last row: after any run of commits and atomic passes, failing or not, and then
      any passes of which enough succeed once commits have stopped, the file reads as unchanged and every
      table of it is stored and announced to its end. */
  lemma FromBuildToTheLastRow(e: Engine, full: FullRound, before: Source, f: FileRound,
                              states: seq<Sys>, actions: seq<Action>, rounds: seq<Round>)
    requires AtomicRun(states, actions) && !states[|actions|].e.stopped
    requires states[0].e == FullSync(e, full) && BuiltWhole(e, full, before, states[0].src, f)
    requires
      var s := states[|actions|];
      && AnyPasses(s.src, rounds) && Successes(s.src, rounds, f.rel) > 0
      && BacklogBelow(s, f.rel, Successes(s.src, rounds, f.rel) * ROUND_CAP)
    ensures
      var src := states[|actions|].src;
      var end := Sys(AfterRounds(states[|actions|].e, rounds), src);
      && Settled(end, f.rel)
      && forall t: TableId :: t.rel == f.rel ==> AllDelivered(states[0].e, end.e, RowsOf(src, t), t)
  {
    var n := |actions|;
    var s := states[n];
    var end := Sys(AfterRounds(s.e, rounds), s.src);
    BuiltIsReady(e, full, before, states[0].src, f);
    hide FullSync, BuiltWhole, Watched, AllDelivered, AtomicRun;
    NothingIsSwallowed(states, actions, n, f.rel);
    DrainedDespiteFailures(s, rounds, f.rel);
    RunIsSound(states, actions);
    forall t: TableId | t.rel == f.rel ensures AllDelivered(states[0].e, end.e, RowsOf(s.src, t), t) {
      EveryRowIsAnnouncedOnce(states, actions, n, t);
      PassesKeepBoth(states[0].e, s, rounds, t);
      CaughtUpDelivers(states[0].e, end, t);
    }
  }

  lemma RunIsSound(states: seq<Sys>, actions: seq<Action>)
    requires AtomicRun(states, actions) && SysOk(states[0]) && !states[|actions|].e.stopped
    ensures Run(states, actions) && SysOk(states[|actions|])
    ensures forall a :: a in actions ==> a.Commit? || a.Polled?
  {
    assert SourceOk(states[0].src);
    hide SysOk, SourceOk;
    AtomicRunIsRun(states, actions);
    NeverRetired(states, actions);
    EveryRunIsConsistent(states, actions, |actions|);
  }
}
