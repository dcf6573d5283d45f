/** Resuming an export (`src/export.rs`): names that stay apart, and a second round that changes nothing. */
module ExportResumes {
  import opened Wrappers
  import opened Texts
  import opened ExportNames
  import opened ExportWriter
  import opened ExportRuns
  import opened ExportSafety

  // ---- the manifest keeps names apart ------------------------------------------------------------

  predicate NamesOk(r: Round, previous: seq<Entry>) {
    && TakenStems(previous) <= r.taken
    && EntriesOk(r.entries, previous, r.taken)
    && StemsApart(r.entries)
  }

  lemma EntriesOkMore(entries: seq<Entry>, previous: seq<Entry>, target: Target, taken: set<string>)
    requires TakenStems(previous) <= taken && EntriesOk(entries, previous, taken)
    ensures
      var taken' := TakenAfter(previous, target, taken);
      TakenStems(previous) <= taken' && EntriesOk(entries, previous, taken')
  {
    NewName(previous, target, taken);
    hide TakenAfter, TakenStems, KeepsName;
    var taken' := TakenAfter(previous, target, taken);
    forall e | e in entries ensures EntryOk(e, previous, taken') {
      assert EntryOk(e, previous, taken);
    }
  }

  /** Whatever line a step adds to the manifest, it carries the name chosen at that step. */
  lemma AddedEntry(r: Round, previous: seq<Entry>, recorded: seq<Entry>, target: Target, feed: Feed, opts: Options)
    requires opts.resume || previous == []
    ensures
      var r' := ExportOne(r, previous, recorded, target, feed, opts);
      && r'.taken == TakenAfter(previous, target, r.taken)
      && (r'.entries == r.entries
          || exists e: Entry ::
               && r'.entries == r.entries + [e] && e.file.Some?
               && EntryStem(e) == Fold(StemIn(previous, target, r.taken))
               && (e.talker == target.talker || !KeepsName(previous, target.talker)))
  {
    hide WriteSession, TakenAfter, StemIn, Owner, Lookup, IsComplete, StemOf, Fold, PartOf, TakenStems;
    var r' := ExportOne(r, previous, recorded, target, feed, opts);
    var stem := StemIn(previous, target, r.taken);
    var path := PathOf(stem, opts.format);
    StemOfPath(stem, Extension(opts.format));
    OwnerIsClaimant(recorded, path);
    LookupIn(previous, target.talker);
    if r'.entries != r.entries {
      var e := r'.entries[|r'.entries| - 1];
      assert r'.entries == r.entries + [e];
      if Claims(e, path) {
        StemOfFolded(e.file.value, stem, Extension(opts.format));
      }
    }
  }

  lemma NamesStep(r: Round, previous: seq<Entry>, recorded: seq<Entry>, target: Target, feed: Feed, opts: Options)
    requires (opts.resume || previous == []) && StemsApart(previous) && NamesOk(r, previous)
    ensures NamesOk(ExportOne(r, previous, recorded, target, feed, opts), previous)
  {
    AddedEntry(r, previous, recorded, target, feed, opts);
    EntriesOkMore(r.entries, previous, target, r.taken);
    hide ExportOne, TakenAfter, TakenStems, EntriesOk, StemsApart, StemIn, KeepsName;
    var r' := ExportOne(r, previous, recorded, target, feed, opts);
    if r'.entries != r.entries {
      var e: Entry :| r'.entries == r.entries + [e] && e.file.Some?
                      && EntryStem(e) == Fold(StemIn(previous, target, r.taken))
                      && (e.talker == target.talker || !KeepsName(previous, target.talker));
      EntryJoins(r.entries, previous, target, r.taken, e);
    }
  }

  lemma {:induction false} NamesRound(dir: Dir, targets: seq<Target>, feeds: seq<Feed>, opts: Options, n: nat)
    requires n <= |targets| == |feeds| && (opts.resume ==> StemsApart(ManifestOf(dir)))
    ensures NamesOk(After(dir, targets, feeds, opts, n), Previous(dir, opts))
  {
    hide ManifestOf, ExportOne, After;
    AfterNone(dir, targets, feeds, opts);
    if n > 0 {
      hide NamesOk;
      AfterOneMore(dir, targets, feeds, opts, n - 1);
      NamesRound(dir, targets, feeds, opts, n - 1);
      NamesStep(After(dir, targets, feeds, opts, n - 1), Previous(dir, opts), ManifestOf(dir), targets[n - 1], feeds[n - 1], opts);
    }
  }

  /** Every round leaves a manifest in which no two sessions share a name; a resume needs that of the
      manifest it starts from, a fresh round needs nothing. */
  lemma ManifestNamesStayApart(dir: Dir, targets: seq<Target>, feeds: seq<Feed>, opts: Options)
    requires |targets| == |feeds| && (opts.resume ==> StemsApart(ManifestOf(dir)))
    ensures StemsApart(ManifestOf(DirAfter(dir, targets, feeds, opts)))
  {
    NamesRound(dir, targets, feeds, opts, |targets|);
    hide After, Apart;
    var entries := Whole(dir, targets, feeds, opts).entries;
    IndexOfOrdered(entries);
    assert ManifestOf(DirAfter(dir, targets, feeds, opts)) == IndexOf(entries);
  }

  // ---- a resume leaves the others' files alone ----------------------------------------------------

  lemma ResumeStepAvoids(previous: seq<Entry>, target: Target, taken: set<string>, format: Format, e: Entry)
    requires StemsApart(previous) && TakenStems(previous) <= taken
    requires e in previous && e.talker != target.talker
    ensures !Claims(e, PathOf(StemIn(previous, target, taken), format))
  {
    var stem := StemIn(previous, target, taken);
    NewName(previous, target, taken);
    LookupIn(previous, target.talker);
    hide StemIn, Lookup, Fold, StemOf;
    if e.file.Some? {
      assert EntryStem(e) in TakenStems(previous);
      assert KeepsName(previous, target.talker) ==> Apart(Lookup(previous, target.talker).value, e);
    }
    if Claims(e, PathOf(stem, format)) {
      StemOfFolded(e.file.value, stem, Extension(format));
    }
  }

  /** No step of a resume delivers to a file the manifest records for another session. */
  lemma {:induction false} ResumeAvoidsOthers(dir: Dir, targets: seq<Target>, feeds: seq<Feed>, opts: Options, n: nat, i: nat, e: Entry)
    requires i < n <= |targets| == |feeds| && opts.resume && StemsApart(ManifestOf(dir))
    requires e in ManifestOf(dir) && e.talker != targets[i].talker
    ensures
      var verdicts := After(dir, targets, feeds, opts, n).verdicts;
      |verdicts| == n && (verdicts[i].Written? ==> !Claims(e, verdicts[i].path))
  {
    hide After, ManifestOf, Claims, WriteSession, TakenAfter, StemIn, Owner, Lookup, StemsApart;
    var r := After(dir, targets, feeds, opts, n - 1);
    AfterOneMore(dir, targets, feeds, opts, n - 1);
    VerdictCount(dir, targets, feeds, opts, n - 1);
    OneMoreVerdict(r, ManifestOf(dir), ManifestOf(dir), targets[n - 1], feeds[n - 1], opts);
    if i < n - 1 {
      hide ExportOne;
      ResumeAvoidsOthers(dir, targets, feeds, opts, n - 1, i, e);
      assert After(dir, targets, feeds, opts, n).verdicts[..n - 1][i] == r.verdicts[i];
    } else {
      NamesRound(dir, targets, feeds, opts, n - 1);
      ResumeStepAvoids(ManifestOf(dir), targets[i], r.taken, opts.format, e);
    }
  }

  lemma {:induction false} VerdictCount(dir: Dir, targets: seq<Target>, feeds: seq<Feed>, opts: Options, n: nat)
    requires n <= |targets| == |feeds|
    ensures |After(dir, targets, feeds, opts, n).verdicts| == n
  {
    hide ExportOne, After, ManifestOf;
    AfterNone(dir, targets, feeds, opts);
    if n > 0 {
      AfterOneMore(dir, targets, feeds, opts, n - 1);
      VerdictCount(dir, targets, feeds, opts, n - 1);
      OneMoreVerdict(After(dir, targets, feeds, opts, n - 1), Previous(dir, opts), ManifestOf(dir), targets[n - 1], feeds[n - 1], opts);
    }
  }

  /** The file is still there if it was, and if it is new or its bytes are, some step delivered there. */
  ghost predicate Accounted(dir: Dir, r: Round, k: string) {
    && (k in dir ==> k in r.dir)
    && (k in r.dir && !(k in dir && r.dir[k] == dir[k]) ==> exists i :: DeliveredAs(r.verdicts, i, k))
  }

  lemma AccountedStep(dir: Dir, r: Round, previous: seq<Entry>, recorded: seq<Entry>, target: Target, feed: Feed, opts: Options, k: string)
    requires !IsPart(k) && Accounted(dir, r, k)
    ensures Accounted(dir, ExportOne(r, previous, recorded, target, feed, opts), k)
  {
    var r' := ExportOne(r, previous, recorded, target, feed, opts);
    OneMoreVerdict(r, previous, recorded, target, feed, opts);
    StepTouchesItsPath(r, previous, recorded, target, feed, opts, k);
    hide ExportOne, IsPart, PathIn, Fold;
    if k in r'.dir && !(k in dir && r'.dir[k] == dir[k]) {
      if k in r.dir && r'.dir[k] == r.dir[k] {
        var i :| DeliveredAs(r.verdicts, i, k);
        assert r'.verdicts[i] == r'.verdicts[..|r.verdicts|][i];
        assert DeliveredAs(r'.verdicts, i, k);
      } else {
        assert DeliveredAs(r'.verdicts, |r.verdicts|, k);
      }
    }
  }

  /** In any round, a file whose bytes change (or that appears) is where some step delivered. */
  lemma {:induction false} ChangesAreDeliveries(dir: Dir, targets: seq<Target>, feeds: seq<Feed>, opts: Options, n: nat, k: string)
    requires n <= |targets| == |feeds| && !IsPart(k)
    ensures Accounted(dir, After(dir, targets, feeds, opts, n), k)
  {
    hide ExportOne, ManifestOf, IsPart, After, DeliveredAs;
    AfterNone(dir, targets, feeds, opts);
    if n > 0 {
      hide Accounted;
      AfterOneMore(dir, targets, feeds, opts, n - 1);
      ChangesAreDeliveries(dir, targets, feeds, opts, n - 1, k);
      AccountedStep(dir, After(dir, targets, feeds, opts, n - 1), Previous(dir, opts), ManifestOf(dir), targets[n - 1], feeds[n - 1], opts, k);
    }
  }

  /** A resume changes a file the manifest records for a session only by delivering that session again. */
  lemma ResumeRespectsOwners(dir: Dir, targets: seq<Target>, feeds: seq<Feed>, opts: Options, e: Entry)
    requires |targets| == |feeds| && opts.resume && StemsApart(ManifestOf(dir))
    requires e in ManifestOf(dir) && e.file.Some? && Fold(e.file.value) in dir
    requires !IsPart(Fold(e.file.value)) && Fold(e.file.value) != INDEX
    ensures
      var k, after := Fold(e.file.value), DirAfter(dir, targets, feeds, opts);
      var verdicts := Whole(dir, targets, feeds, opts).verdicts;
      && |verdicts| == |targets| && k in after
      && (after[k] == dir[k] || exists i :: DeliveredAs(verdicts, i, k) && targets[i].talker == e.talker)
  {
    var k := Fold(e.file.value);
    ChangesAreDeliveries(dir, targets, feeds, opts, |targets|, k);
    VerdictCount(dir, targets, feeds, opts, |targets|);
    IndexPart();
    hide After, ManifestOf, StemsApart, IsPart;
    var r := Whole(dir, targets, feeds, opts);
    if r.dir[k] != dir[k] {
      var i :| DeliveredAs(r.verdicts, i, k);
      if targets[i].talker != e.talker {
        ResumeAvoidsOthers(dir, targets, feeds, opts, |targets|, i, e);
      }
    }
  }

  // ---- refusing and reusing ---------------------------------------------------------------------------

  /** A target is refused only outside a resume, over a file that is there and that the manifest does not
      record for it first; it is reused only in a resume, over a whole file the manifest records for it
      under this very name, with media if media are wanted. Neither touches the directory. */
  lemma RefusedOrReusedMeans(r: Round, recorded: seq<Entry>, target: Target, feed: Feed, opts: Options)
    requires Ordered(recorded)
    ensures
      var previous := if opts.resume then recorded else [];
      var verdict, path := LastVerdict(r, previous, recorded, target, feed, opts), PathIn(r, previous, target, opts);
      && (verdict.Refused? || verdict.Reused? ==>
            Fold(path) in r.dir && ExportOne(r, previous, recorded, target, feed, opts).dir == r.dir)
      && (verdict.Refused? ==> !opts.resume)
      && (verdict.Refused? && verdict.owner.Some? ==>
            verdict.owner.value != target.talker && RecordedFor(recorded, verdict.owner.value, Fold(path)))
      && (verdict.Refused? && verdict.owner.None? ==> forall e :: e in recorded ==> !Claims(e, path))
      && (verdict.Reused? ==> opts.resume && RecordedFile(recorded, target.talker) == Some(path)
                              && Fold(PartOf(path)) !in r.dir && IsComplete(r.dir, path, opts.format)
                              && (r.dir[Fold(path)].Foreign? ==>
                                    r.dir[Fold(path)].lastByte == Some(if opts.format.Json? then '}' else '\n'))
                              && (opts.withMedia ==> Lookup(recorded, target.talker).value.withMedia == Some(true)))
  {
    assert IsComplete(r.dir, PathIn(r, if opts.resume then recorded else [], target, opts), opts.format) ==>
             var file := r.dir[Fold(PathIn(r, if opts.resume then recorded else [], target, opts))];
             file.Foreign? ==> file.lastByte == Some(if opts.format.Json? then '}' else '\n');
    hide WriteSession, TakenAfter, StemIn, Owner, Lookup, IsComplete, Fold, RecordedFor, Claims, ExportOne, PartOf;
    var previous := if opts.resume then recorded else [];
    var path := PathIn(r, previous, target, opts);
    RefusedMeans(r, previous, recorded, target, feed, opts);
    ReusedMeans(r, previous, recorded, target, feed, opts);
    OwnerIsClaimant(recorded, path);
    if Owner(recorded, path).Some? {
      OwnerIsRecorded(recorded, path);
    }
  }

  lemma RefusedMeans(r: Round, previous: seq<Entry>, recorded: seq<Entry>, target: Target, feed: Feed, opts: Options)
    ensures
      var verdict, path := LastVerdict(r, previous, recorded, target, feed, opts), PathIn(r, previous, target, opts);
      var owner := Owner(recorded, path);
      verdict.Refused? ==>
        && !opts.resume && Fold(path) in r.dir && ExportOne(r, previous, recorded, target, feed, opts).dir == r.dir
        && verdict.owner == (if owner.Some? then Some(owner.value.talker) else None)
        && (owner.Some? ==> owner.value.talker != target.talker)
  {
    hide WriteSession, TakenAfter, StemIn, Owner, Lookup, CanReuse, Fold, Claims;
  }

  lemma ReusedMeans(r: Round, previous: seq<Entry>, recorded: seq<Entry>, target: Target, feed: Feed, opts: Options)
    ensures
      var verdict, path := LastVerdict(r, previous, recorded, target, feed, opts), PathIn(r, previous, target, opts);
      verdict.Reused? ==>
        && opts.resume && Fold(path) in r.dir && ExportOne(r, previous, recorded, target, feed, opts).dir == r.dir
        && CanReuse(r, previous, target, path, opts)
  {
    hide WriteSession, TakenAfter, StemIn, Owner, Lookup, MayReplace, CanReuse, Fold, Claims;
  }

  lemma {:induction false} EntriesStay(dir: Dir, targets: seq<Target>, feeds: seq<Feed>, opts: Options, i: nat, n: nat)
    requires i <= n <= |targets| == |feeds|
    ensures After(dir, targets, feeds, opts, i).entries <= After(dir, targets, feeds, opts, n).entries
    ensures |After(dir, targets, feeds, opts, n).verdicts| == n
    ensures After(dir, targets, feeds, opts, n).verdicts[..i] == After(dir, targets, feeds, opts, i).verdicts
  {
    hide After, ExportOne, ManifestOf;
    VerdictCount(dir, targets, feeds, opts, i);
    if i < n {
      var r := After(dir, targets, feeds, opts, n - 1);
      AfterOneMore(dir, targets, feeds, opts, n - 1);
      EntriesStay(dir, targets, feeds, opts, i, n - 1);
      OneMoreVerdict(r, Previous(dir, opts), ManifestOf(dir), targets[n - 1], feeds[n - 1], opts);
      EntriesOnlyGrow(r, Previous(dir, opts), ManifestOf(dir), targets[n - 1], feeds[n - 1], opts);
      assert After(dir, targets, feeds, opts, n).verdicts[..n - 1][..i] == After(dir, targets, feeds, opts, n).verdicts[..i];
    }
  }

  lemma EntriesOnlyGrow(r: Round, previous: seq<Entry>, recorded: seq<Entry>, target: Target, feed: Feed, opts: Options)
    ensures
      var r', verdict := ExportOne(r, previous, recorded, target, feed, opts), LastVerdict(r, previous, recorded, target, feed, opts);
      && r.entries <= r'.entries
      && (verdict.Refused? && verdict.owner.Some? ==> HasEntry(r'.entries, verdict.owner.value))
  {
    hide WriteSession, TakenAfter, StemIn, Owner, Lookup, MayReplace, CanReuse;
    var r', verdict := ExportOne(r, previous, recorded, target, feed, opts), LastVerdict(r, previous, recorded, target, feed, opts);
    if verdict.Refused? && verdict.owner.Some? && r'.entries != r.entries {
      assert r'.entries[|r'.entries| - 1].talker == verdict.owner.value;
    }
  }

  lemma {:induction false} IndexHas(entries: seq<Entry>, talker: string)
    requires HasEntry(entries, talker)
    ensures Lookup(IndexOf(entries), talker).Some?
  {
    var init, last := entries[..|entries| - 1], entries[|entries| - 1];
    assert entries == init + [last];
    PutEntryLookup(IndexOf(init), last, talker);
    if last.talker != talker {
      IndexHas(init, talker);
    }
  }

  // ---- the file a target was refused for -----------------------------------------------------------

  /** Step `j` delivered this session. */
  predicate WrittenFor(verdicts: seq<Verdict>, targets: seq<Target>, j: int, talker: string) {
    0 <= j < |verdicts| <= |targets| && verdicts[j].Written? && targets[j].talker == talker
  }

  ghost predicate Delivers(verdicts: seq<Verdict>, targets: seq<Target>, talker: string) {
    exists j :: WrittenFor(verdicts, targets, j, talker)
  }

  /** The line of a session in the manifest under way: a file delivered this round if there is one, else
      the line it had before (if any). */
  ghost predicate LineOk(r: Round, recorded: seq<Entry>, targets: seq<Target>, talker: string) {
    LineFits(Lookup(IndexOf(r.entries), talker), r.verdicts, recorded, targets, talker)
  }

  ghost predicate LineFits(line: Option<Entry>, verdicts: seq<Verdict>, recorded: seq<Entry>, targets: seq<Target>, talker: string) {
    if Delivers(verdicts, targets, talker) then
      line.Some? && exists j :: WrittenFor(verdicts, targets, j, talker) && line.value.file == Some(verdicts[j].path)
    else line.Some? ==> line == Lookup(recorded, talker)
  }

  /** One more verdict that is no delivery of this session leaves its line fitting. */
  lemma LineFitsStill(line: Option<Entry>, verdicts: seq<Verdict>, verdicts': seq<Verdict>, recorded: seq<Entry>, targets: seq<Target>, talker: string)
    requires LineFits(line, verdicts, recorded, targets, talker)
    requires |verdicts'| == |verdicts| + 1 <= |targets| && verdicts'[..|verdicts|] == verdicts
    requires !WrittenFor(verdicts', targets, |verdicts|, talker)
    ensures LineFits(line, verdicts', recorded, targets, talker)
    ensures Delivers(verdicts', targets, talker) <==> Delivers(verdicts, targets, talker)
  {
    hide Lookup;
    assert forall j :: 0 <= j < |verdicts| ==> verdicts'[..|verdicts|][j] == verdicts'[j];
    assert forall j :: WrittenFor(verdicts', targets, j, talker) <==> WrittenFor(verdicts, targets, j, talker);
  }

  /** What a step of a fresh round adds to the manifest. */
  lemma FreshStepAdds(r: Round, recorded: seq<Entry>, target: Target, feed: Feed, opts: Options)
    requires !opts.resume && Ordered(recorded)
    ensures
      var r', verdict := ExportOne(r, [], recorded, target, feed, opts), LastVerdict(r, [], recorded, target, feed, opts);
      && (verdict.Written? ==> r'.entries == r.entries + [NewEntry(target, verdict.path, verdict.messages, opts)])
      && (!verdict.Written? && r'.entries != r.entries ==>
            exists e: Entry :: r'.entries == r.entries + [e] && !HasEntry(r.entries, e.talker) && Lookup(recorded, e.talker) == Some(e))
  {
    var path := PathIn(r, [], target, opts);
    OwnerIsClaimant(recorded, path);
    if Owner(recorded, path).Some? {
      LookupOf(recorded, Owner(recorded, path).value);
    }
    hide WriteSession, TakenAfter, StemIn, Owner, Lookup, MayReplace, CanReuse, Claims;
    var r' := ExportOne(r, [], recorded, target, feed, opts);
    var verdict := LastVerdict(r, [], recorded, target, feed, opts);
    if !verdict.Written? && r'.entries != r.entries {
      var e := Owner(recorded, path).value;
      assert r'.entries == r.entries + [e];
    }
  }

  lemma LookupAfterOneMore(entries: seq<Entry>, e: Entry, talker: string)
    ensures Lookup(IndexOf(entries + [e]), talker) == if talker == e.talker then Some(e) else Lookup(IndexOf(entries), talker)
  {
    assert (entries + [e])[..|entries|] == entries;
    PutEntryLookup(IndexOf(entries), e, talker);
  }

  lemma LineStep(r: Round, recorded: seq<Entry>, targets: seq<Target>, feed: Feed, opts: Options, talker: string)
    requires !opts.resume && Ordered(recorded) && |r.verdicts| < |targets| && LineOk(r, recorded, targets, talker)
    ensures LineOk(ExportOne(r, [], recorded, targets[|r.verdicts|], feed, opts), recorded, targets, talker)
  {
    hide ExportOne, Lookup, IndexOf, LineFits, WrittenFor;
    var target := targets[|r.verdicts|];
    var r', n := ExportOne(r, [], recorded, target, feed, opts), |r.verdicts|;
    FreshStepAdds(r, recorded, target, feed, opts);
    OneMoreVerdict(r, [], recorded, target, feed, opts);
    if r'.verdicts[n].Written? {
      var e := NewEntry(target, r'.verdicts[n].path, r'.verdicts[n].messages, opts);
      LookupAfterOneMore(r.entries, e, talker);
      LineWritten(r, r', e, recorded, targets, talker);
    } else {
      LineNotWritten(r, r', recorded, targets, talker);
    }
  }

  lemma LineWritten(r: Round, r': Round, e: Entry, recorded: seq<Entry>, targets: seq<Target>, talker: string)
    requires LineOk(r, recorded, targets, talker)
    requires |r'.verdicts| == |r.verdicts| + 1 <= |targets| && r'.verdicts[..|r.verdicts|] == r.verdicts
    requires
      var last := r'.verdicts[|r.verdicts|];
      last.Written? && e.talker == targets[|r.verdicts|].talker && e.file == Some(last.path)
    requires Lookup(IndexOf(r'.entries), talker) == if talker == e.talker then Some(e) else Lookup(IndexOf(r.entries), talker)
    ensures LineOk(r', recorded, targets, talker)
  {
    hide Lookup, IndexOf;
    if talker == e.talker {
      assert WrittenFor(r'.verdicts, targets, |r.verdicts|, talker);
    } else {
      LineFitsStill(Lookup(IndexOf(r.entries), talker), r.verdicts, r'.verdicts, recorded, targets, talker);
    }
  }

  lemma LineNotWritten(r: Round, r': Round, recorded: seq<Entry>, targets: seq<Target>, talker: string)
    requires LineOk(r, recorded, targets, talker)
    requires |r'.verdicts| == |r.verdicts| + 1 <= |targets| && r'.verdicts[..|r.verdicts|] == r.verdicts
    requires !r'.verdicts[|r.verdicts|].Written?
    requires r'.entries == r.entries || exists e: Entry ::
               r'.entries == r.entries + [e] && !HasEntry(r.entries, e.talker) && Lookup(recorded, e.talker) == Some(e)
    ensures LineOk(r', recorded, targets, talker)
  {
    var line := Lookup(IndexOf(r.entries), talker);
    LineFitsStill(line, r.verdicts, r'.verdicts, recorded, targets, talker);
    hide Lookup, IndexOf, WrittenFor, Delivers;
    if r'.entries != r.entries {
      var e: Entry :| r'.entries == r.entries + [e] && !HasEntry(r.entries, e.talker) && Lookup(recorded, e.talker) == Some(e);
      LookupAfterOneMore(r.entries, e, talker);
      NoEntryNoLine(r.entries, e.talker);
    }
  }

  lemma {:induction false} NoEntryNoLine(entries: seq<Entry>, talker: string)
    requires !HasEntry(entries, talker)
    ensures Lookup(IndexOf(entries), talker) == None
  {
    IndexOfOrdered(entries);
    LookupIn(IndexOf(entries), talker);
  }

  lemma {:induction false} LineRound(dir: Dir, targets: seq<Target>, feeds: seq<Feed>, opts: Options, n: nat, talker: string)
    requires n <= |targets| == |feeds| && !opts.resume
    ensures LineOk(After(dir, targets, feeds, opts, n), ManifestOf(dir), targets, talker)
    ensures |After(dir, targets, feeds, opts, n).verdicts| == n
  {
    hide After, ExportOne, ManifestOf;
    AfterNone(dir, targets, feeds, opts);
    VerdictCount(dir, targets, feeds, opts, n);
    if n > 0 {
      hide LineOk;
      AfterOneMore(dir, targets, feeds, opts, n - 1);
      VerdictCount(dir, targets, feeds, opts, n - 1);
      LineRound(dir, targets, feeds, opts, n - 1, talker);
      ManifestOrdered(dir);
      LineStep(After(dir, targets, feeds, opts, n - 1), ManifestOf(dir), targets, feeds[n - 1], opts, talker);
    }
  }

  /** The path a target of this round comes to. */
  function RoundPath(dir: Dir, targets: seq<Target>, feeds: seq<Feed>, opts: Options, i: nat): string
    requires i < |targets| == |feeds|
  {
    PathIn(After(dir, targets, feeds, opts, i), Previous(dir, opts), targets[i], opts)
  }

  lemma {:induction false} TakenGrows(dir: Dir, targets: seq<Target>, feeds: seq<Feed>, opts: Options, i: nat, n: nat)
    requires i < n <= |targets| == |feeds| && !opts.resume
    ensures Fold(StemIn([], targets[i], After(dir, targets, feeds, opts, i).taken)) in After(dir, targets, feeds, opts, n).taken
  {
    hide After, ExportOne, ManifestOf, StemIn, TakenAfter, Fold;
    var r := After(dir, targets, feeds, opts, n - 1);
    AfterOneMore(dir, targets, feeds, opts, n - 1);
    NewName([], targets[n - 1], r.taken);
    AddedEntry(r, [], ManifestOf(dir), targets[n - 1], feeds[n - 1], opts);
    if i < n - 1 {
      TakenGrows(dir, targets, feeds, opts, i, n - 1);
    }
  }

  /** Within a fresh round no two steps come to the same path, whatever the case. */
  lemma RoundPathsDiffer(dir: Dir, targets: seq<Target>, feeds: seq<Feed>, opts: Options, i: nat, j: nat)
    requires i < j < |targets| == |feeds| && !opts.resume
    ensures Fold(RoundPath(dir, targets, feeds, opts, i)) != Fold(RoundPath(dir, targets, feeds, opts, j))
  {
    var stem := StemIn([], targets[i], After(dir, targets, feeds, opts, i).taken);
    var stem' := StemIn([], targets[j], After(dir, targets, feeds, opts, j).taken);
    TakenGrows(dir, targets, feeds, opts, i, j);
    NewName([], targets[j], After(dir, targets, feeds, opts, j).taken);
    hide After, StemIn, TakenAfter, Fold, PathOf;
    PathsApart(stem, stem', opts.format);
  }

  /** A refused file stays recorded for its owner unless the round delivers the owner: a delivery gives the
      owner another file, and then no line is left for the refused one. */
  lemma RefusedFileStaysUnlessDelivered(dir: Dir, targets: seq<Target>, feeds: seq<Feed>, opts: Options, i: nat)
    requires i < |targets| == |feeds|
    ensures
      var verdicts := Whole(dir, targets, feeds, opts).verdicts;
      && |verdicts| == |targets|
      && (verdicts[i].Refused? && verdicts[i].owner.Some? ==>
            var owner, manifest := verdicts[i].owner.value, ManifestOf(DirAfter(dir, targets, feeds, opts));
            && Lookup(manifest, owner).Some?
            && (RecordedFor(manifest, owner, Fold(RoundPath(dir, targets, feeds, opts, i)))
                <==> !Delivers(verdicts, targets, owner)))
  {
    hide After, ExportOne, IndexOf, Lookup, Fold, RoundPath;
    RefusedForOwnerStaysListed(dir, targets, feeds, opts, i);
    var whole := Whole(dir, targets, feeds, opts);
    if whole.verdicts[i].Refused? && whole.verdicts[i].owner.Some? {
      var owner := whole.verdicts[i].owner.value;
      LineRound(dir, targets, feeds, opts, |targets|, owner);
      assert ManifestOf(Finished(whole)) == IndexOf(whole.entries);
      if Delivers(whole.verdicts, targets, owner) {
        var j :| WrittenFor(whole.verdicts, targets, j, owner)
                 && Lookup(IndexOf(whole.entries), owner).value.file == Some(whole.verdicts[j].path);
        WrittenAtItsPath(dir, targets, feeds, opts, j);
        if i < j {
          RoundPathsDiffer(dir, targets, feeds, opts, i, j);
        } else {
          RoundPathsDiffer(dir, targets, feeds, opts, j, i);
        }
      }
    }
  }

  /** The verdict of step `i`, seen from the end of the round. */
  lemma VerdictAtEnd(dir: Dir, targets: seq<Target>, feeds: seq<Feed>, opts: Options, i: nat)
    requires i < |targets| == |feeds|
    ensures
      var r, whole := After(dir, targets, feeds, opts, i), Whole(dir, targets, feeds, opts);
      && |whole.verdicts| == |targets|
      && whole.verdicts[i] == LastVerdict(r, Previous(dir, opts), ManifestOf(dir), targets[i], feeds[i], opts)
      && After(dir, targets, feeds, opts, i + 1).entries <= whole.entries
  {
    hide After, ExportOne, ManifestOf;
    AfterOneMore(dir, targets, feeds, opts, i);
    VerdictCount(dir, targets, feeds, opts, i);
    EntriesStay(dir, targets, feeds, opts, i + 1, |targets|);
    var whole := Whole(dir, targets, feeds, opts);
    assert whole.verdicts[i] == whole.verdicts[..i + 1][i];
  }

  lemma WrittenAtItsPath(dir: Dir, targets: seq<Target>, feeds: seq<Feed>, opts: Options, j: nat)
    requires j < |targets| == |feeds|
    ensures
      var verdicts := Whole(dir, targets, feeds, opts).verdicts;
      |verdicts| == |targets| && (verdicts[j].Written? ==> verdicts[j].path == RoundPath(dir, targets, feeds, opts, j))
  {
    VerdictAtEnd(dir, targets, feeds, opts, j);
    WrittenPath(After(dir, targets, feeds, opts, j), Previous(dir, opts), ManifestOf(dir), targets[j], feeds[j], opts);
  }

  lemma WrittenPath(r: Round, previous: seq<Entry>, recorded: seq<Entry>, target: Target, feed: Feed, opts: Options)
    ensures
      var verdict := LastVerdict(r, previous, recorded, target, feed, opts);
      verdict.Written? ==> verdict.path == PathIn(r, previous, target, opts)
  {
    hide WriteSession, TakenAfter, StemIn, Owner, Lookup, MayReplace, CanReuse;
  }

  /** A refusal happens outside a resume only, for the session the manifest recorded the file for, and that
      session has a line in the manifest the round leaves. */
  lemma RefusedForOwnerStaysListed(dir: Dir, targets: seq<Target>, feeds: seq<Feed>, opts: Options, i: nat)
    requires i < |targets| == |feeds|
    ensures
      var verdicts := Whole(dir, targets, feeds, opts).verdicts;
      && |verdicts| == |targets|
      && (verdicts[i].Refused? ==> !opts.resume)
      && (verdicts[i].Refused? && verdicts[i].owner.Some? ==>
            && Lookup(ManifestOf(DirAfter(dir, targets, feeds, opts)), verdicts[i].owner.value).Some?
            && RecordedFor(ManifestOf(dir), verdicts[i].owner.value, Fold(RoundPath(dir, targets, feeds, opts, i))))
  {
    hide After, ExportOne, IndexOf, Lookup, Fold, PathIn, RecordedFor;
    var r, recorded, whole := After(dir, targets, feeds, opts, i), ManifestOf(dir), Whole(dir, targets, feeds, opts);
    ManifestOrdered(dir);
    VerdictAtEnd(dir, targets, feeds, opts, i);
    AfterOneMore(dir, targets, feeds, opts, i);
    RefusedOrReusedMeans(r, recorded, targets[i], feeds[i], opts);
    EntriesOnlyGrow(r, Previous(dir, opts), recorded, targets[i], feeds[i], opts);
    var verdict := whole.verdicts[i];
    if verdict.Refused? && verdict.owner.Some? {
      assert HasEntry(whole.entries, verdict.owner.value);
      IndexHas(whole.entries, verdict.owner.value);
      assert ManifestOf(Finished(whole)) == IndexOf(whole.entries);
    }
  }
}
