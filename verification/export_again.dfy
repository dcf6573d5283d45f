/** The outcome of a round, and the round after it (`src/export.rs`). */
module ExportAgain {
  import opened Wrappers
  import opened Texts
  import opened ExportNames
  import opened ExportWriter
  import opened ExportRuns
  import opened ExportSafety
  import opened ExportResumes

  // ---- each target lands in exactly one list ----------------------------------------------------

  predicate DistinctTalkers(targets: seq<Target>) {
    forall i, j :: 0 <= i < j < |targets| ==> targets[i].talker != targets[j].talker
  }

  predicate IsSkip(v: Verdict) {
    v.Refused? || v.Failed?
  }

  function WrittenMessages(verdicts: seq<Verdict>): nat {
    if verdicts == [] then 0
    else
      var last := verdicts[|verdicts| - 1];
      WrittenMessages(verdicts[..|verdicts| - 1]) + if last.Written? then last.messages else 0
  }

  predicate Talks(targets: seq<Target>, n: nat, talker: string) {
    exists i :: 0 <= i < n && i < |targets| && targets[i].talker == talker
  }

  /** A list of the report names exactly the targets with such a verdict. */
  predicate Lists(targets: seq<Target>, verdicts: seq<Verdict>, o: Outcome)
    requires |verdicts| <= |targets|
  {
    && |o.written| + |o.reused| + |o.skipped| == |verdicts|
    && (forall i :: 0 <= i < |verdicts| ==>
          && (verdicts[i].Written? ==> verdicts[i].path in o.written)
          && (verdicts[i].Reused? <==> targets[i].talker in o.reused)
          && (IsSkip(verdicts[i]) <==> targets[i].talker in o.skipped))
  }

  ghost predicate FromTargets(targets: seq<Target>, n: nat, o: Outcome) {
    forall t :: t in o.reused || t in o.skipped ==> Talks(targets, n, t)
  }

  /** With distinct talkers every target lands in exactly one of written, reused and skipped, and the
      number of messages is what the written ones add up to. */
  lemma {:induction false} OneOutcomeEach(targets: seq<Target>, verdicts: seq<Verdict>)
    requires |verdicts| <= |targets| && DistinctTalkers(targets)
    ensures
      var o := Report(targets, verdicts);
      && Lists(targets, verdicts, o)
      && o.messages == WrittenMessages(verdicts)
      && FromTargets(targets, |verdicts|, o)
  {
    if verdicts != [] {
      var n := |verdicts| - 1;
      OneOutcomeEach(targets, verdicts[..n]);
      ListsOneMore(targets, verdicts, Report(targets, verdicts[..n]));
    }
  }

  lemma ListsOneMore(targets: seq<Target>, verdicts: seq<Verdict>, o: Outcome)
    requires 0 < |verdicts| <= |targets| && DistinctTalkers(targets)
    requires Lists(targets, verdicts[..|verdicts| - 1], o) && FromTargets(targets, |verdicts| - 1, o)
    ensures
      var o' := Add(o, targets[|verdicts| - 1].talker, verdicts[|verdicts| - 1]);
      Lists(targets, verdicts, o') && FromTargets(targets, |verdicts|, o')
  {
    var n := |verdicts| - 1;
    var talker, o' := targets[n].talker, Add(o, targets[n].talker, verdicts[n]);
    assert !Talks(targets, n, talker);
    assert talker !in o.skipped && talker !in o.reused;
    forall i | 0 <= i < |verdicts|
      ensures (verdicts[i].Written? ==> verdicts[i].path in o'.written)
              && (verdicts[i].Reused? <==> targets[i].talker in o'.reused)
              && (IsSkip(verdicts[i]) <==> targets[i].talker in o'.skipped)
    {
      if i < n {
        assert verdicts[..n][i] == verdicts[i];
        assert targets[i].talker != talker;
      }
    }
    forall t | t in o'.reused || t in o'.skipped ensures Talks(targets, n + 1, t) {
      if t != talker {
        assert Talks(targets, n, t);
      }
    }
  }

  // ---- what was delivered stands ------------------------------------------------------------------

  /** What this step delivered: the header and the fetched pages, each sorted, under the final name. */
  ghost predicate Stands(dir: Dir, target: Target, feed: Feed, verdict: Verdict, format: Format) {
    verdict.Written? ==>
      && verdict.messages == Total(feed.pages)
      && Fold(verdict.path) in dir && dir[Fold(verdict.path)] == Delivered(target, feed.pages, format)
      && FileHolds(dir[Fold(verdict.path)], target, feed.pages, format)
  }

  /** This is a line of the manifest, and no later one is for the same session. */
  predicate LastLine(entries: seq<Entry>, e: Entry) {
    exists i :: 0 <= i < |entries| && entries[i] == e && forall j :: i < j < |entries| ==> entries[j].talker != e.talker
  }

  /** A written session has its line in the manifest: the name it was written to, how many messages, the
      display name, and whether media were kept. */
  predicate Listed(entries: seq<Entry>, target: Target, verdict: Verdict, opts: Options) {
    verdict.Written? ==> LastLine(entries, LineOf(target, verdict, opts))
  }

  function LineOf(target: Target, verdict: Verdict, opts: Options): (e: Entry)
    requires verdict.Written?
    ensures e.talker == target.talker
  {
    Entry.Entry(target.talker, Some(verdict.path), verdict.messages, target.displayName, Some(opts.withMedia))
  }

  lemma LastLineStays(entries: seq<Entry>, added: Entry, e: Entry)
    requires LastLine(entries, e) && added.talker != e.talker
    ensures LastLine(entries + [added], e)
  {
    var i :| 0 <= i < |entries| && entries[i] == e && forall j :: i < j < |entries| ==> entries[j].talker != e.talker;
    assert (entries + [added])[i] == e;
  }

  /** Once a session has a line, a step for another one adds none for it. */
  lemma StepAddsNoLine(r: Round, previous: seq<Entry>, recorded: seq<Entry>, target: Target, feed: Feed, opts: Options, e: Entry)
    requires LastLine(r.entries, e) && e.talker != target.talker
    ensures LastLine(ExportOne(r, previous, recorded, target, feed, opts).entries, e)
  {
    LookupIn(previous, target.talker);
    hide WriteSession, TakenAfter, StemIn, Owner, Lookup, MayReplace, IsComplete, Fold, PartOf, LastLine;
    var r' := ExportOne(r, previous, recorded, target, feed, opts);
    if r'.entries != r.entries {
      var added := r'.entries[|r.entries|];
      assert r'.entries == r.entries + [added];
      assert added.talker != e.talker by { LastLineIsEntry(r.entries, e); }
      LastLineStays(r.entries, added, e);
    }
  }

  lemma LastLineIsEntry(entries: seq<Entry>, e: Entry)
    requires LastLine(entries, e)
    ensures e in entries && HasEntry(entries, e.talker)
  {
  }

  lemma {:induction false} LastLineCounts(entries: seq<Entry>, e: Entry)
    requires LastLine(entries, e)
    ensures Lookup(IndexOf(entries), e.talker) == Some(e)
  {
    var i :| 0 <= i < |entries| && entries[i] == e && forall j :: i < j < |entries| ==> entries[j].talker != e.talker;
    var init, last := entries[..|entries| - 1], entries[|entries| - 1];
    assert entries == init + [last];
    PutEntryLookup(IndexOf(init), last, e.talker);
    if i < |init| {
      assert init[i] == e;
      LastLineCounts(init, e);
    }
  }

  lemma StepStands(r: Round, previous: seq<Entry>, recorded: seq<Entry>, target: Target, feed: Feed, opts: Options)
    ensures
      var r', verdict := ExportOne(r, previous, recorded, target, feed, opts), LastVerdict(r, previous, recorded, target, feed, opts);
      && Stands(r'.dir, target, feed, verdict, opts.format)
      && Listed(r'.entries, target, verdict, opts)
      && (verdict.Written? ==> verdict.path == PathIn(r, previous, target, opts))
      && r.entries <= r'.entries
  {
    var stem := StemIn(previous, target, r.taken);
    SessionTouchesItsOwnFiles(r.dir, target, stem, feed, opts.format);
    hide WriteSession, TakenAfter, StemIn, Owner, Lookup, MayReplace, CanReuse, Fold, Delivered, FileHolds;
    var r' := ExportOne(r, previous, recorded, target, feed, opts);
    var verdict := LastVerdict(r, previous, recorded, target, feed, opts);
    if verdict.Written? {
      var named := r.(taken := TakenAfter(previous, target, r.taken));
      assert r' == WriteOut(named, target, stem, feed, opts);
      assert r'.dir == WriteSession(r.dir, target, stem, feed, opts.format).0;
      var e := r'.entries[|r'.entries| - 1];
      assert e == LineOf(target, verdict, opts) && LastLine(r'.entries, e);
    }
  }

  /** A file with a name that is listed for another session is not where this step delivers. */
  lemma ListedElsewhere(r: Round, previous: seq<Entry>, target: Target, other: Target, verdict: Verdict, opts: Options)
    requires StemsApart(previous) && NamesOk(r, previous) && Listed(r.entries, other, verdict, opts) && verdict.Written?
    requires other.talker != target.talker
    ensures Fold(PathIn(r, previous, target, opts)) != Fold(verdict.path)
  {
    var e := LineOf(other, verdict, opts);
    LastLineIsEntry(r.entries, e);
    var stem := StemIn(previous, target, r.taken);
    var mine := Entry.Entry(target.talker, Some(PathOf(stem, opts.format)), 0, "", None);
    StemOfPath(stem, Extension(opts.format));
    assert EntryOk(e, previous, r.taken);
    hide StemIn, StemOf, Fold, TakenStems, KeepsName;
    NewEntryApart(previous, target, r.taken, mine, e);
    if Fold(verdict.path) == Fold(PathOf(stem, opts.format)) {
      StemOfFolded(verdict.path, stem, Extension(opts.format));
    }
  }

  lemma PreviousApart(dir: Dir, opts: Options)
    requires opts.resume ==> StemsApart(ManifestOf(dir))
    ensures StemsApart(Previous(dir, opts))
  {
    hide ManifestOf;
  }

  lemma StandsOn(r: Round, previous: seq<Entry>, recorded: seq<Entry>, target: Target, feed: Feed, opts: Options,
                 other: Target, otherFeed: Feed, verdict: Verdict)
    requires StemsApart(previous) && NamesOk(r, previous) && other.talker != target.talker
    requires Stands(r.dir, other, otherFeed, verdict, opts.format) && Listed(r.entries, other, verdict, opts)
    requires verdict.Written? ==> !IsPart(Fold(verdict.path))
    ensures
      var r' := ExportOne(r, previous, recorded, target, feed, opts);
      Stands(r'.dir, other, otherFeed, verdict, opts.format) && Listed(r'.entries, other, verdict, opts)
  {
    hide ExportOne, NamesOk, StemsApart, IsPart, Delivered, FileHolds, Fold, PathIn, LastLine, LineOf;
    StepStands(r, previous, recorded, target, feed, opts);
    if verdict.Written? {
      ListedElsewhere(r, previous, target, other, verdict, opts);
      StepTouchesItsPath(r, previous, recorded, target, feed, opts, Fold(verdict.path));
      StepAddsNoLine(r, previous, recorded, target, feed, opts, LineOf(other, verdict, opts));
    }
  }

  /** The session at `i` has its verdict, and a file and a line of its own if that is `Written`. */
  ghost predicate StandsAt(r: Round, target: Target, feed: Feed, i: nat, opts: Options) {
    && i < |r.verdicts|
    && Stands(r.dir, target, feed, r.verdicts[i], opts.format)
    && Listed(r.entries, target, r.verdicts[i], opts)
    && (r.verdicts[i].Written? ==> !IsPart(Fold(r.verdicts[i].path)))
  }

  lemma StandsAtOnce(r: Round, previous: seq<Entry>, recorded: seq<Entry>, target: Target, feed: Feed, opts: Options)
    ensures StandsAt(ExportOne(r, previous, recorded, target, feed, opts), target, feed, |r.verdicts|, opts)
  {
    hide ExportOne, IsPart, Delivered, FileHolds, Fold, Stands, Listed, PathOf, StemIn;
    OneMoreVerdict(r, previous, recorded, target, feed, opts);
    StepStands(r, previous, recorded, target, feed, opts);
    PathIsNoPart(StemIn(previous, target, r.taken), opts.format);
  }

  lemma StandsStill(r: Round, previous: seq<Entry>, recorded: seq<Entry>, target: Target, feed: Feed, opts: Options,
                    other: Target, otherFeed: Feed, i: nat)
    requires StemsApart(previous) && NamesOk(r, previous) && other.talker != target.talker
    requires StandsAt(r, other, otherFeed, i, opts)
    ensures StandsAt(ExportOne(r, previous, recorded, target, feed, opts), other, otherFeed, i, opts)
  {
    hide ExportOne, IsPart, Delivered, FileHolds, Fold, Stands, Listed, StemsApart, NamesOk;
    OneMoreVerdict(r, previous, recorded, target, feed, opts);
    var r' := ExportOne(r, previous, recorded, target, feed, opts);
    assert r'.verdicts[i] == r'.verdicts[..|r.verdicts|][i] == r.verdicts[i];
    StandsOn(r, previous, recorded, target, feed, opts, other, otherFeed, r.verdicts[i]);
  }

  lemma DeliveredAtOnce(dir: Dir, targets: seq<Target>, feeds: seq<Feed>, opts: Options, n: nat)
    requires n < |targets| == |feeds|
    ensures StandsAt(After(dir, targets, feeds, opts, n + 1), targets[n], feeds[n], n, opts)
  {
    hide ExportOne, ManifestOf, After, StandsAt, Previous;
    AfterOneMore(dir, targets, feeds, opts, n);
    VerdictCount(dir, targets, feeds, opts, n);
    StandsAtOnce(After(dir, targets, feeds, opts, n), Previous(dir, opts), ManifestOf(dir), targets[n], feeds[n], opts);
  }

  lemma DeliveredStill(dir: Dir, targets: seq<Target>, feeds: seq<Feed>, opts: Options, n: nat, i: nat)
    requires i < n < |targets| == |feeds| && targets[i].talker != targets[n].talker
    requires opts.resume ==> StemsApart(ManifestOf(dir))
    requires StandsAt(After(dir, targets, feeds, opts, n), targets[i], feeds[i], i, opts)
    ensures StandsAt(After(dir, targets, feeds, opts, n + 1), targets[i], feeds[i], i, opts)
  {
    hide ExportOne, ManifestOf, After, NamesOk, StemsApart, StandsAt, Previous;
    PreviousApart(dir, opts);
    NamesRound(dir, targets, feeds, opts, n);
    AfterOneMore(dir, targets, feeds, opts, n);
    StandsStill(After(dir, targets, feeds, opts, n), Previous(dir, opts), ManifestOf(dir), targets[n], feeds[n], opts,
                targets[i], feeds[i], i);
  }

  /** With distinct talkers, and names apart to begin with, what a step delivered is what stands under
      that name when the round is over. */
  lemma {:induction false} DeliveredStands(dir: Dir, targets: seq<Target>, feeds: seq<Feed>, opts: Options, n: nat, i: nat)
    requires i < n <= |targets| == |feeds| && DistinctTalkers(targets) && (opts.resume ==> StemsApart(ManifestOf(dir)))
    ensures StandsAt(After(dir, targets, feeds, opts, n), targets[i], feeds[i], i, opts)
  {
    hide ManifestOf, After, StemsApart, StandsAt;
    if i < n - 1 {
      DeliveredStands(dir, targets, feeds, opts, n - 1, i);
      DeliveredStill(dir, targets, feeds, opts, n - 1, i);
    } else {
      DeliveredAtOnce(dir, targets, feeds, opts, i);
    }
  }

  // ---- the round after --------------------------------------------------------------------------

  /** A later resume, with these options, will find this session done. */
  predicate Ready(e: Entry, dir: Dir, opts: Options) {
    && e.file.Some?
    && var file := e.file.value;
    && Fold(StemOf(file)) != "index" && PathOf(StemOf(file), opts.format) == file
    && (opts.withMedia ==> e.withMedia == Some(true))
    && Fold(PartOf(file)) !in dir
    && IsComplete(dir, file, opts.format)
  }

  predicate AllReady(entries: seq<Entry>, targets: seq<Target>, dir: Dir, opts: Options) {
    |entries| <= |targets| && forall i :: 0 <= i < |entries| ==> entries[i].talker == targets[i].talker && Ready(entries[i], dir, opts)
  }

  lemma DeliveredIsComplete(target: Target, pages: seq<seq<Row>>, format: Format)
    ensures LastByte(Delivered(target, pages, format)) == Some(if format.Json? then '}' else '\n')
  {
  }

  /** Delivering one session leaves the others done. */
  lemma StillReady(e: Entry, dir: Dir, target: Target, stem: string, feed: Feed, opts: Options)
    requires Ready(e, dir, opts)
    ensures Ready(e, WriteSession(dir, target, stem, feed, opts.format).0, opts)
  {
    var file := e.file.value;
    PathIsNoPart(StemOf(file), opts.format);
    PathIsNoPart(stem, opts.format);
    PartNames(file);
    PartNames(PathOf(stem, opts.format));
    DeliveredIsComplete(target, feed.pages, opts.format);
    hide Fold, StemOf, IsPart, Delivered, LastByte, PathOf;
    SessionTouchesItsOwnFiles(dir, target, stem, feed, opts.format);
  }

  lemma NowReady(dir: Dir, target: Target, stem: string, feed: Feed, opts: Options)
    requires Fold(stem) != "index"
    ensures
      var (dir', written) := WriteSession(dir, target, stem, feed, opts.format);
      written.Some? ==> Ready(NewEntry(target, PathOf(stem, opts.format), written.value, opts), dir', opts)
  {
    StemOfPath(stem, Extension(opts.format));
    DeliveredIsComplete(target, feed.pages, opts.format);
    PartIsAnotherFile(PathOf(stem, opts.format));
    hide Fold, StemOf, Delivered, LastByte;
  }

  /** A step that skips nothing adds the line of a session that is now done. */
  lemma AddedReady(r: Round, previous: seq<Entry>, recorded: seq<Entry>, target: Target, feed: Feed, opts: Options)
    requires (opts.resume || previous == []) && TakenStems(previous) <= r.taken
    requires !IsSkip(LastVerdict(r, previous, recorded, target, feed, opts))
    ensures
      var r', stem := ExportOne(r, previous, recorded, target, feed, opts), StemIn(previous, target, r.taken);
      && |r'.entries| == |r.entries| + 1 && r'.entries[..|r.entries|] == r.entries
      && r'.entries[|r.entries|].talker == target.talker && Ready(r'.entries[|r.entries|], r'.dir, opts)
      && (r'.dir == r.dir || r'.dir == WriteSession(r.dir, target, stem, feed, opts.format).0)
  {
    var stem := StemIn(previous, target, r.taken);
    NewName(previous, target, r.taken);
    StemOfPath(stem, Extension(opts.format));
    LookupIn(previous, target.talker);
    NowReady(r.dir, target, stem, feed, opts);
    hide WriteSession, TakenAfter, StemIn, Owner, Lookup, MayReplace, Fold, StemOf, IsComplete, KeepsName, TakenStems;
  }

  lemma ReadyStep(r: Round, previous: seq<Entry>, recorded: seq<Entry>, targets: seq<Target>, feed: Feed, opts: Options)
    requires (opts.resume || previous == []) && |r.entries| < |targets| && AllReady(r.entries, targets, r.dir, opts)
    requires TakenStems(previous) <= r.taken
    requires !IsSkip(LastVerdict(r, previous, recorded, targets[|r.entries|], feed, opts))
    ensures
      var r' := ExportOne(r, previous, recorded, targets[|r.entries|], feed, opts);
      && |r'.entries| == |r.entries| + 1 && AllReady(r'.entries, targets, r'.dir, opts)
  {
    hide ExportOne, Ready, WriteSession, StemIn, TakenStems, IsSkip;
    var target := targets[|r.entries|];
    var r' := ExportOne(r, previous, recorded, target, feed, opts);
    AddedReady(r, previous, recorded, target, feed, opts);
    forall i | 0 <= i < |r.entries| ensures r'.entries[i] == r.entries[i] && Ready(r.entries[i], r'.dir, opts) {
      assert r'.entries[..|r.entries|][i] == r.entries[i];
      StillReady(r.entries[i], r.dir, target, StemIn(previous, target, r.taken), feed, opts);
    }
  }

  /** A round in which nothing was skipped. */
  predicate NoSkips(dir: Dir, targets: seq<Target>, feeds: seq<Feed>, opts: Options, n: nat)
    requires n <= |targets| == |feeds|
  {
    forall i :: 0 <= i < |After(dir, targets, feeds, opts, n).verdicts| ==> !IsSkip(After(dir, targets, feeds, opts, n).verdicts[i])
  }

  lemma {:induction false} ReadyRound(dir: Dir, targets: seq<Target>, feeds: seq<Feed>, opts: Options, n: nat)
    requires n <= |targets| == |feeds| && NoSkips(dir, targets, feeds, opts, n)
    ensures
      var r := After(dir, targets, feeds, opts, n);
      |r.entries| == n && AllReady(r.entries, targets, r.dir, opts) && TakenStems(Previous(dir, opts)) <= r.taken
  {
    hide ExportOne, ManifestOf, After, Ready, IsSkip, TakenStems;
    AfterNone(dir, targets, feeds, opts);
    if n > 0 {
      var previous, recorded := Previous(dir, opts), ManifestOf(dir);
      var r := After(dir, targets, feeds, opts, n - 1);
      AfterOneMore(dir, targets, feeds, opts, n - 1);
      VerdictCount(dir, targets, feeds, opts, n - 1);
      OneMoreVerdict(r, previous, recorded, targets[n - 1], feeds[n - 1], opts);
      var verdicts := After(dir, targets, feeds, opts, n).verdicts;
      assert forall i :: 0 <= i < n - 1 ==> verdicts[..n - 1][i] == verdicts[i];
      ReadyRound(dir, targets, feeds, opts, n - 1);
      ReadyStep(r, previous, recorded, targets, feeds[n - 1], opts);
      TakenStepGrows(r, previous, recorded, targets[n - 1], feeds[n - 1], opts);
    }
  }

  lemma TakenStepGrows(r: Round, previous: seq<Entry>, recorded: seq<Entry>, target: Target, feed: Feed, opts: Options)
    requires TakenStems(previous) <= r.taken
    ensures TakenStems(previous) <= ExportOne(r, previous, recorded, target, feed, opts).taken
  {
    NewName(previous, target, r.taken);
    hide WriteSession, TakenAfter, StemIn, Owner, Lookup, MayReplace, CanReuse, TakenStems, KeepsName;
  }

  lemma ReadyFile(e: Entry, dir: Dir, opts: Options)
    requires Ready(e, dir, opts)
    ensures !IsPart(Fold(e.file.value)) && Fold(e.file.value) != INDEX
    ensures IsPart(Fold(PartOf(e.file.value)))
  {
    var file := e.file.value;
    PathIsNoPart(StemOf(file), opts.format);
    PartNames(file);
    NotTheIndex(Fold(StemOf(file)), opts.format);
  }

  lemma FinishedStillReady(e: Entry, r: Round, opts: Options)
    requires Ready(e, r.dir, opts)
    ensures Ready(e, Finished(r), opts) && Fold(e.file.value) != INDEX
  {
    hide Fold, StemOf, IsPart, LastByte, PathOf, IndexOf;
    ReadyFile(e, r.dir, opts);
    IndexPart();
    IndexIsNoPart();
  }

  lemma IndexIsNoPart()
    ensures !IsPart(INDEX)
  {
    assert INDEX[9] == 'n' && ".part"[4] == 't';
  }

  lemma NotTheIndex(stem: string, format: Format)
    requires stem != "index"
    ensures stem + "." + Extension(format) != INDEX
  {
    StemOfPath(stem, Extension(format));
    StemOfPath("index", "json");
    assert INDEX == "index" + "." + "json";
  }

  lemma {:induction false} IndexFinds(entries: seq<Entry>, talker: string, e: Entry)
    requires e in entries && e.talker == talker && forall x :: x in entries && x.talker == talker ==> x == e
    ensures Lookup(IndexOf(entries), talker) == Some(e)
  {
    var init, last := entries[..|entries| - 1], entries[|entries| - 1];
    assert entries == init + [last];
    PutEntryLookup(IndexOf(init), last, talker);
    if last.talker != talker {
      IndexFinds(init, talker, e);
    }
  }

  /** The manifest of a round without skips over distinct talkers says of each that it is done. */
  lemma RoundIsDone(dir: Dir, targets: seq<Target>, feeds: seq<Feed>, opts: Options, i: nat)
    requires i < |targets| == |feeds| && DistinctTalkers(targets) && NoSkips(dir, targets, feeds, opts, |targets|)
    ensures
      var after := DirAfter(dir, targets, feeds, opts);
      var e := Lookup(ManifestOf(after), targets[i].talker);
      e.Some? && Ready(e.value, after, opts)
  {
    hide After, Ready, NoSkips;
    ReadyRound(dir, targets, feeds, opts, |targets|);
    var r := Whole(dir, targets, feeds, opts);
    var e := r.entries[i];
    assert forall j :: 0 <= j < |targets| && targets[j].talker == targets[i].talker ==> j == i;
    IndexFinds(r.entries, targets[i].talker, e);
    FinishedStillReady(e, r, opts);
    assert ManifestOf(Finished(r)) == IndexOf(r.entries);
  }

  /** A target whose session the manifest has done is reused: nothing is fetched, nothing is written. */
  lemma ReadyIsReused(r: Round, previous: seq<Entry>, recorded: seq<Entry>, target: Target, feed: Feed, opts: Options)
    requires opts.resume
    requires Lookup(previous, target.talker).Some? && Ready(Lookup(previous, target.talker).value, r.dir, opts)
    ensures
      var r' := ExportOne(r, previous, recorded, target, feed, opts);
      && r'.dir == r.dir && r'.verdicts == r.verdicts + [Reused]
      && r'.entries == r.entries + [Lookup(previous, target.talker).value]
  {
    hide TakenAfter, Fold, StemOf, LastByte, PathOf, WriteSession, Lookup;
  }

  /** Every target so far was reused. */
  predicate AllReused(r: Round, dir: Dir, index: seq<Entry>, targets: seq<Target>, n: nat)
    requires n <= |targets|
  {
    && r.dir == dir
    && |r.verdicts| == |r.entries| == n
    && forall i :: 0 <= i < n ==> r.verdicts[i].Reused? && Lookup(index, targets[i].talker) == Some(r.entries[i])
  }

  lemma {:induction false} AgainReuses(dir: Dir, targets: seq<Target>, feeds: seq<Feed>, opts: Options, n: nat)
    requires n <= |targets| == |feeds| && opts.resume
    requires forall i :: 0 <= i < |targets| ==>
               Lookup(ManifestOf(dir), targets[i].talker).Some? && Ready(Lookup(ManifestOf(dir), targets[i].talker).value, dir, opts)
    ensures AllReused(After(dir, targets, feeds, opts, n), dir, ManifestOf(dir), targets, n)
  {
    hide ExportOne, ManifestOf, After, Ready, Lookup;
    AfterNone(dir, targets, feeds, opts);
    if n > 0 {
      AfterOneMore(dir, targets, feeds, opts, n - 1);
      AgainReuses(dir, targets, feeds, opts, n - 1);
      ReadyIsReused(After(dir, targets, feeds, opts, n - 1), ManifestOf(dir), ManifestOf(dir), targets[n - 1], feeds[n - 1], opts);
    }
  }

  lemma ReadyInResume(e: Entry, dir: Dir, opts: Options)
    requires Ready(e, dir, opts)
    ensures Ready(e, dir, opts.(resume := true))
  {
  }

  /** What a resume finds after a round without skips: every session recorded, with its file ready. */
  lemma AllReadyAgain(dir: Dir, targets: seq<Target>, feeds: seq<Feed>, opts: Options, again: seq<Target>)
    requires |targets| == |feeds| && DistinctTalkers(targets) && NoSkips(dir, targets, feeds, opts, |targets|)
    requires forall t :: t in again ==> Talks(targets, |targets|, t.talker)
    ensures
      var first := DirAfter(dir, targets, feeds, opts);
      forall i :: 0 <= i < |again| ==>
        var e := Lookup(ManifestOf(first), again[i].talker);
        e.Some? && Ready(e.value, first, opts.(resume := true))
  {
    hide After, Ready, NoSkips, Lookup, DirAfter, ManifestOf, DistinctTalkers;
    var first := DirAfter(dir, targets, feeds, opts);
    forall i | 0 <= i < |again|
      ensures var e := Lookup(ManifestOf(first), again[i].talker); e.Some? && Ready(e.value, first, opts.(resume := true))
    {
      assert again[i] in again && Talks(targets, |targets|, again[i].talker);
      var j :| 0 <= j < |targets| && targets[j].talker == again[i].talker;
      RoundIsDone(dir, targets, feeds, opts, j);
      ReadyInResume(Lookup(ManifestOf(first), again[i].talker).value, first, opts);
    }
  }

  lemma AgainKeepsNames(r: Round, dir: Dir, index: seq<Entry>, again: seq<Target>, o: Options, i: nat)
    requires i < |again| && AllReused(r, dir, index, again, |again|)
    requires Ready(r.entries[i], dir, o)
    ensures RecordedFile(ManifestOf(Finished(r)), again[i].talker) == RecordedFile(index, again[i].talker)
    ensures RecordedFile(index, again[i].talker).Some?
  {
    var e := r.entries[i];
    LookupIn(index, again[i].talker);
    forall x | x in r.entries && x.talker == again[i].talker ensures x == e {
      var j :| 0 <= j < |r.entries| && r.entries[j] == x;
      LookupIn(index, again[j].talker);
    }
    IndexFinds(r.entries, again[i].talker, e);
    assert ManifestOf(Finished(r)) == IndexOf(r.entries);
  }

  predicate SameName(before: seq<Entry>, after: seq<Entry>, talker: string) {
    RecordedFile(after, talker).Some? && RecordedFile(after, talker) == RecordedFile(before, talker)
  }

  lemma AllKeepNames(r: Round, dir: Dir, index: seq<Entry>, again: seq<Target>, o: Options)
    requires AllReused(r, dir, index, again, |again|)
    requires forall i :: 0 <= i < |again| ==> Ready(r.entries[i], dir, o)
    ensures forall t :: t in again ==> SameName(index, ManifestOf(Finished(r)), t.talker)
  {
    hide Ready, AllReused, RecordedFile, Finished, ManifestOf;
    forall t | t in again ensures SameName(index, ManifestOf(Finished(r)), t.talker) {
      var i :| 0 <= i < |again| && again[i] == t;
      AgainKeepsNames(r, dir, index, again, o, i);
    }
  }

  /** A resume that reuses everything leaves the directory as it was but for the manifest. */
  lemma ReusedLeavesFiles(dir: Dir, again: seq<Target>, feeds: seq<Feed>, o: Options, k: string)
    requires |again| == |feeds| && k != INDEX && k != PartOf(INDEX)
    requires AllReused(Whole(dir, again, feeds, o), dir, ManifestOf(dir), again, |again|)
    ensures
      var second := DirAfter(dir, again, feeds, o);
      && second == Finished(Whole(dir, again, feeds, o))
      && (k in second <==> k in dir) && (k in dir ==> second[k] == dir[k])
  {
    hide After, ManifestOf;
  }

  /** After a round without skips over distinct talkers, a resume over any arrangement of the same
      sessions, with the same format and media flag and whatever there would be to fetch, reuses every
      one, changes no artifact, and keeps every session's file name. */
  lemma ResumeAfterRoundChangesNothing(dir: Dir, targets: seq<Target>, feeds: seq<Feed>, opts: Options,
                                       again: seq<Target>, feeds': seq<Feed>, k: string)
    requires |targets| == |feeds| && |again| == |feeds'|
    requires DistinctTalkers(targets) && NoSkips(dir, targets, feeds, opts, |targets|)
    requires forall t :: t in again ==> Talks(targets, |targets|, t.talker)
    requires k != INDEX && k != PartOf(INDEX)
    ensures
      var first, o := DirAfter(dir, targets, feeds, opts), opts.(resume := true);
      var r, second := Whole(first, again, feeds', o), DirAfter(first, again, feeds', o);
      && |r.verdicts| == |again| && (forall i :: 0 <= i < |again| ==> r.verdicts[i].Reused?)
      && (k in second <==> k in first) && (k in first ==> second[k] == first[k])
      && (forall t :: t in again ==> SameName(ManifestOf(first), ManifestOf(second), t.talker))
  {
    hide After, Ready, NoSkips, Lookup, DirAfter, ManifestOf, DistinctTalkers, Finished, SameName, Talks;
    var first, o := DirAfter(dir, targets, feeds, opts), opts.(resume := true);
    AllReadyAgain(dir, targets, feeds, opts, again);
    AgainReuses(first, again, feeds', o, |again|);
    var r := Whole(first, again, feeds', o);
    ReusedLeavesFiles(first, again, feeds', o, k);
    assert forall i :: 0 <= i < |again| ==> Lookup(ManifestOf(first), again[i].talker) == Some(r.entries[i]);
    AllKeepNames(r, first, ManifestOf(first), again, o);
  }

  /** At the end of a round with distinct talkers and names apart, every written session's file holds its
      header and its fetched pages, each sorted, and the manifest says of the session what was written. */
  lemma WrittenFilesHoldTheirPages(dir: Dir, targets: seq<Target>, feeds: seq<Feed>, opts: Options, i: nat)
    requires i < |targets| == |feeds| && DistinctTalkers(targets) && (opts.resume ==> StemsApart(ManifestOf(dir)))
    ensures
      var after, verdicts := DirAfter(dir, targets, feeds, opts), Whole(dir, targets, feeds, opts).verdicts;
      && |verdicts| == |targets|
      && Stands(after, targets[i], feeds[i], verdicts[i], opts.format)
      && (verdicts[i].Written? ==> Lookup(ManifestOf(after), targets[i].talker) == Some(LineOf(targets[i], verdicts[i], opts)))
  {
    hide After, ManifestOf, Delivered, FileHolds, StemsApart, EntriesOk, NamesOk, DistinctTalkers, LastLine, LineOf, IndexOf;
    DeliveredStands(dir, targets, feeds, opts, |targets|, i);
    VerdictCount(dir, targets, feeds, opts, |targets|);
    NamesRound(dir, targets, feeds, opts, |targets|);
    var r := Whole(dir, targets, feeds, opts);
    IndexPart();
    if r.verdicts[i].Written? {
      WrittenIsNoIndex(dir, targets, feeds, opts, |targets|, i);
      LastLineCounts(r.entries, LineOf(targets[i], r.verdicts[i], opts));
      FinishedManifest(r);
    }
  }

  lemma FinishedManifest(r: Round)
    ensures ManifestOf(Finished(r)) == IndexOf(r.entries)
  {
  }

  lemma {:induction false} WrittenIsNoIndex(dir: Dir, targets: seq<Target>, feeds: seq<Feed>, opts: Options, n: nat, i: nat)
    requires i < n <= |targets| == |feeds| && (opts.resume ==> StemsApart(ManifestOf(dir)))
    ensures
      var verdicts := After(dir, targets, feeds, opts, n).verdicts;
      |verdicts| == n && (verdicts[i].Written? ==> Fold(verdicts[i].path) != INDEX)
  {
    hide ExportOne, ManifestOf, After, StemsApart, EntriesOk, StemIn, Fold, PathOf, KeepsName, TakenAfter, TakenStems;
    var previous, recorded := Previous(dir, opts), ManifestOf(dir);
    var r := After(dir, targets, feeds, opts, n - 1);
    AfterOneMore(dir, targets, feeds, opts, n - 1);
    VerdictCount(dir, targets, feeds, opts, n - 1);
    OneMoreVerdict(r, previous, recorded, targets[n - 1], feeds[n - 1], opts);
    if i < n - 1 {
      WrittenIsNoIndex(dir, targets, feeds, opts, n - 1, i);
      assert After(dir, targets, feeds, opts, n).verdicts[..n - 1][i] == r.verdicts[i];
    } else {
      NamesRound(dir, targets, feeds, opts, n - 1);
      StepStands(r, previous, recorded, targets[i], feeds[i], opts);
      NewName(previous, targets[i], r.taken);
      PathIsNoPart(StemIn(previous, targets[i], r.taken), opts.format);
      NotTheIndex(Fold(StemIn(previous, targets[i], r.taken)), opts.format);
    }
  }
}
