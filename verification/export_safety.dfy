/** What a round of exports may and may not touch (`src/export.rs`). */
module ExportSafety {
  import opened Wrappers
  import opened Texts
  import opened ExportNames
  import opened ExportWriter
  import opened ExportRuns

  // ---- the manifest as a map ---------------------------------------------------------------------

  ghost predicate Ordered(index: seq<Entry>) {
    forall i, j :: 0 <= i < j < |index| ==> Less(index[i].talker, index[j].talker)
  }

  lemma {:induction false} PutEntryLookup(index: seq<Entry>, e: Entry, talker: string)
    ensures Lookup(PutEntry(index, e), talker) == if talker == e.talker then Some(e) else Lookup(index, talker)
  {
    if index != [] && index[0].talker != e.talker && !Less(e.talker, index[0].talker) {
      PutEntryLookup(index[1..], e, talker);
      assert PutEntry(index, e)[1..] == PutEntry(index[1..], e);
    } else if index != [] {
      assert PutEntry(index, e)[1..] == index || PutEntry(index, e)[1..] == index[1..];
    } else {
      assert [e][1..] == [];
    }
  }

  lemma {:induction false} PutEntryFrom(index: seq<Entry>, e: Entry)
    ensures forall x :: x in PutEntry(index, e) ==> x == e || x in index
  {
    if index != [] && index[0].talker != e.talker && !Less(e.talker, index[0].talker) {
      PutEntryFrom(index[1..], e);
    }
  }

  lemma {:induction false} PutEntryOrdered(index: seq<Entry>, e: Entry)
    requires Ordered(index)
    ensures Ordered(PutEntry(index, e))
  {
    if index != [] {
      LessIsTotal(e.talker, index[0].talker);
      var rest := index[1..];
      forall x | x in rest ensures Less(index[0].talker, x.talker) {
        var i :| 0 <= i < |rest| && rest[i] == x;
        assert index[i + 1] == x;
      }
      if index[0].talker == e.talker {
        HeadFirst(e, rest);
      } else if Less(e.talker, index[0].talker) {
        forall x | x in index ensures Less(e.talker, x.talker) {
          if x in rest {
            LessIsTransitive(e.talker, index[0].talker, x.talker);
          }
        }
        HeadFirst(e, index);
      } else {
        PutEntryOrdered(rest, e);
        PutEntryFrom(rest, e);
        HeadFirst(index[0], PutEntry(rest, e));
      }
    }
  }

  lemma HeadFirst(e: Entry, rest: seq<Entry>)
    requires Ordered(rest) && forall x :: x in rest ==> Less(e.talker, x.talker)
    ensures Ordered([e] + rest)
  {
  }

  lemma {:induction false} IndexOfOrdered(entries: seq<Entry>)
    ensures Ordered(IndexOf(entries))
    ensures forall x :: x in IndexOf(entries) ==> x in entries
  {
    if entries != [] {
      var init, last := entries[..|entries| - 1], entries[|entries| - 1];
      IndexOfOrdered(init);
      PutEntryOrdered(IndexOf(init), last);
      PutEntryFrom(IndexOf(init), last);
    }
  }

  lemma {:induction false} OwnerIsClaimant(index: seq<Entry>, path: string)
    ensures
      var owner := Owner(index, path);
      if owner.Some? then owner.value in index && Claims(owner.value, path)
      else forall e :: e in index ==> !Claims(e, path)
  {
    if index != [] && !Claims(index[0], path) {
      OwnerIsClaimant(index[1..], path);
    }
  }

  lemma {:induction false} LookupIn(index: seq<Entry>, talker: string)
    ensures
      var e := Lookup(index, talker);
      if e.Some? then e.value in index && e.value.talker == talker
      else forall x :: x in index ==> x.talker != talker
  {
    if index != [] && index[0].talker != talker {
      LookupIn(index[1..], talker);
    }
  }

  lemma {:induction false} LookupOf(index: seq<Entry>, e: Entry)
    requires Ordered(index) && e in index
    ensures Lookup(index, e.talker) == Some(e)
  {
    LessIsTotal(index[0].talker, index[0].talker);
    if index[0] != e {
      assert e in index[1..];
      var i :| 0 <= i < |index[1..]| && index[1..][i] == e;
      assert index[i + 1] == e && Less(index[0].talker, e.talker);
      LessIsTotal(index[0].talker, e.talker);
      LookupOf(index[1..], e);
    }
  }

  lemma ManifestOrdered(dir: Dir)
    ensures Ordered(ManifestOf(dir))
  {
    if INDEX in dir && dir[INDEX].Manifest? {
      IndexOfOrdered(dir[INDEX].entries);
    }
  }

  // ---- what one step touches -------------------------------------------------------------------------

  /** A working file: it exists only while something is being written. */
  predicate IsPart(name: string) {
    |name| >= 5 && name[|name| - 5..] == ".part"
  }

  lemma PartNames(path: string)
    ensures IsPart(Fold(PartOf(path))) && Fold(PartOf(path)) == PartOf(Fold(path))
  {
    FoldConcat(path, ".part");
    FoldFixes(".part");
    assert (Fold(path) + ".part")[|path|..] == ".part";
  }

  lemma PathIsNoPart(stem: string, format: Format)
    ensures !IsPart(Fold(PathOf(stem, format)))
    ensures Fold(PathOf(stem, format)) == Fold(stem) + "." + Extension(format)
  {
    var path := PathOf(stem, format);
    FoldConcat(stem + ".", Extension(format));
    FoldConcat(stem, ".");
    FoldFixes(".");
    FoldFixes(Extension(format));
    assert Fold(path)[|path| - 1] in {'n', 'l'};
    assert ".part"[4] == 't';
  }

  /** Stems that differ whatever the case make paths that do. */
  lemma PathsApart(stem: string, other: string, format: Format)
    requires Fold(stem) != Fold(other)
    ensures Fold(PathOf(stem, format)) != Fold(PathOf(other, format))
  {
    PathIsNoPart(stem, format);
    PathIsNoPart(other, format);
    hide Fold, PathOf, IsPart, Extension;
    assert (Fold(stem) + "." + Extension(format))[..|stem|] == Fold(stem);
    assert (Fold(other) + "." + Extension(format))[..|other|] == Fold(other);
  }

  function PathIn(r: Round, previous: seq<Entry>, target: Target, opts: Options): string {
    PathOf(StemIn(previous, target, r.taken), opts.format)
  }

  function LastVerdict(r: Round, previous: seq<Entry>, recorded: seq<Entry>, target: Target, feed: Feed, opts: Options): Verdict {
    var r' := ExportOne(r, previous, recorded, target, feed, opts);
    OneMoreVerdict(r, previous, recorded, target, feed, opts);
    r'.verdicts[|r.verdicts|]
  }

  /** A step changes the directory under its own path only, and only when it delivers there; its working
      file is the one other name it may remove. */
  lemma StepTouchesItsPath(r: Round, previous: seq<Entry>, recorded: seq<Entry>, target: Target, feed: Feed, opts: Options, k: string)
    requires !IsPart(k)
    ensures
      var dir, dir' := r.dir, ExportOne(r, previous, recorded, target, feed, opts).dir;
      var verdict, path := LastVerdict(r, previous, recorded, target, feed, opts), PathIn(r, previous, target, opts);
      && (k in dir ==> k in dir')
      && (k in dir' && !(k in dir && dir'[k] == dir[k]) ==> verdict.Written? && verdict.path == path && k == Fold(path))
  {
    var stem := StemIn(previous, target, r.taken);
    PartNames(PathOf(stem, opts.format));
    SessionTouchesItsOwnFiles(r.dir, target, stem, feed, opts.format);
    hide WriteSession, TakenAfter, StemIn, Owner, Lookup, MayReplace, CanReuse, IsPart, Fold;
    var named := r.(taken := TakenAfter(previous, target, r.taken));
    var path := PathOf(stem, opts.format);
    var r' := ExportOne(r, previous, recorded, target, feed, opts);
    if r' == WriteOut(named, target, stem, feed, opts) {
      assert r'.dir == WriteSession(r.dir, target, stem, feed, opts.format).0;
    } else {
      assert r'.dir == r.dir;
    }
  }

  // ---- outside a resume -----------------------------------------------------------------------------

  /** The manifest names this file for this session. */
  predicate RecordedFor(index: seq<Entry>, talker: string, name: string) {
    var file := RecordedFile(index, talker);
    file.Some? && Fold(file.value) == name
  }

  lemma OwnerIsRecorded(index: seq<Entry>, path: string)
    requires Ordered(index) && Owner(index, path).Some?
    ensures RecordedFor(index, Owner(index, path).value.talker, Fold(path))
  {
    OwnerIsClaimant(index, path);
    LookupOf(index, Owner(index, path).value);
  }

  /** What a session delivered so far over a file that was there before is recorded for it. */
  predicate DeliveriesOwned(r: Round, dir: Dir, recorded: seq<Entry>) {
    forall t, p :: t in r.delivered && p in r.delivered[t] && Fold(p) in dir ==> RecordedFor(recorded, t, Fold(p))
  }

  lemma FreshStep(r: Round, dir: Dir, recorded: seq<Entry>, target: Target, feed: Feed, opts: Options)
    requires !opts.resume && Ordered(recorded) && DeliveriesOwned(r, dir, recorded)
    requires forall k :: k in dir && !IsPart(k) ==> k in r.dir
    ensures
      var r', verdict := ExportOne(r, [], recorded, target, feed, opts), LastVerdict(r, [], recorded, target, feed, opts);
      && DeliveriesOwned(r', dir, recorded)
      && (verdict.Written? && Fold(verdict.path) in dir ==> RecordedFor(recorded, target.talker, Fold(verdict.path)))
  {
    var stem := StemIn([], target, r.taken);
    var path := PathOf(stem, opts.format);
    var named := r.(taken := TakenAfter([], target, r.taken));
    PathIsNoPart(stem, opts.format);
    hide WriteSession, TakenAfter, StemIn, Owner, Lookup, CanReuse, IsPart, Fold, RecordedFor;
    if Fold(path) in dir && MayReplace(r, recorded, target, path) {
      if Owner(recorded, path).Some? && Owner(recorded, path).value.talker == target.talker {
        OwnerIsRecorded(recorded, path);
      }
      assert RecordedFor(recorded, target.talker, Fold(path));
    }
  }

  /** Delivered at step `i` under this name. */
  predicate DeliveredAs(verdicts: seq<Verdict>, i: int, name: string) {
    0 <= i < |verdicts| && verdicts[i].Written? && Fold(verdicts[i].path) == name
  }

  /** The artifact is still there, and if its bytes are not the old ones some step delivered to it. */
  ghost predicate Untouched(dir: Dir, r: Round, k: string) {
    k in dir && !IsPart(k) ==>
      k in r.dir && (r.dir[k] == dir[k] || exists i :: DeliveredAs(r.verdicts, i, k))
  }

  /** Whoever delivered to a file that was there before is the session the manifest records it for. */
  ghost predicate Entitled(dir: Dir, verdicts: seq<Verdict>, recorded: seq<Entry>, targets: seq<Target>)
    requires |verdicts| <= |targets|
  {
    forall i, k :: k in dir && DeliveredAs(verdicts, i, k) ==> RecordedFor(recorded, targets[i].talker, k)
  }

  ghost predicate FreshOk(dir: Dir, r: Round, targets: seq<Target>) {
    && |r.verdicts| <= |targets|
    && DeliveriesOwned(r, dir, ManifestOf(dir))
    && Entitled(dir, r.verdicts, ManifestOf(dir), targets)
    && forall k :: Untouched(dir, r, k)
  }

  lemma {:induction false} FreshRound(dir: Dir, targets: seq<Target>, feeds: seq<Feed>, opts: Options, n: nat)
    requires n <= |targets| == |feeds| && !opts.resume
    ensures
      var r := After(dir, targets, feeds, opts, n);
      |r.verdicts| == n && FreshOk(dir, r, targets)
  {
    hide ExportOne, ManifestOf, After;
    AfterNone(dir, targets, feeds, opts);
    if n > 0 {
      hide FreshOk;
      AfterOneMore(dir, targets, feeds, opts, n - 1);
      FreshRound(dir, targets, feeds, opts, n - 1);
      FreshRoundStep(dir, After(dir, targets, feeds, opts, n - 1), targets, feeds[n - 1], opts);
    }
  }

  lemma FreshRoundStep(dir: Dir, r: Round, targets: seq<Target>, feed: Feed, opts: Options)
    requires !opts.resume && |r.verdicts| < |targets| && FreshOk(dir, r, targets)
    ensures
      var r' := ExportOne(r, [], ManifestOf(dir), targets[|r.verdicts|], feed, opts);
      |r'.verdicts| == |r.verdicts| + 1 && FreshOk(dir, r', targets)
  {
    hide ExportOne, IsPart, RecordedFor, Fold, ManifestOf, DeliveriesOwned;
    var recorded, target := ManifestOf(dir), targets[|r.verdicts|];
    var r' := ExportOne(r, [], recorded, target, feed, opts);
    ManifestOrdered(dir);
    OneMoreVerdict(r, [], recorded, target, feed, opts);
    assert forall k :: k in dir && !IsPart(k) ==> Untouched(dir, r, k);
    FreshStep(r, dir, recorded, target, feed, opts);
    EntitledStep(dir, r.verdicts, r'.verdicts, recorded, targets);
    forall k ensures Untouched(dir, r', k) {
      if k in dir && !IsPart(k) {
        assert Untouched(dir, r, k);
        StepTouchesItsPath(r, [], recorded, target, feed, opts, k);
        UntouchedStep(dir, r, r', k);
      }
    }
  }

  lemma EntitledStep(dir: Dir, verdicts: seq<Verdict>, verdicts': seq<Verdict>, recorded: seq<Entry>, targets: seq<Target>)
    requires |verdicts'| == |verdicts| + 1 <= |targets| && verdicts'[..|verdicts|] == verdicts
    requires Entitled(dir, verdicts, recorded, targets)
    requires
      var last := verdicts'[|verdicts|];
      last.Written? && Fold(last.path) in dir ==> RecordedFor(recorded, targets[|verdicts|].talker, Fold(last.path))
    ensures Entitled(dir, verdicts', recorded, targets)
  {
    hide RecordedFor, Fold;
    forall i, k | k in dir && DeliveredAs(verdicts', i, k) ensures RecordedFor(recorded, targets[i].talker, k) {
      if i < |verdicts| {
        assert verdicts'[..|verdicts|][i] == verdicts'[i];
        assert DeliveredAs(verdicts, i, k);
      }
    }
  }

  lemma UntouchedStep(dir: Dir, r: Round, r': Round, k: string)
    requires |r'.verdicts| == |r.verdicts| + 1 && r'.verdicts[..|r.verdicts|] == r.verdicts
    requires k in dir && !IsPart(k) && Untouched(dir, r, k) && k in r'.dir
    requires r'.dir[k] == r.dir[k] || DeliveredAs(r'.verdicts, |r.verdicts|, k)
    ensures Untouched(dir, r', k)
  {
    if r'.dir[k] == r.dir[k] != dir[k] {
      var i :| DeliveredAs(r.verdicts, i, k);
      assert r'.verdicts[i] == r.verdicts[i];
      assert DeliveredAs(r'.verdicts, i, k);
    }
  }

  /** A round that is no resume never takes an artifact away, changes the bytes of one that was there before
      only by delivering to it, and never delivers to one unless the manifest it found records it for the
      very session delivered. */
  lemma FreshRoundRespectsOwners(dir: Dir, targets: seq<Target>, feeds: seq<Feed>, opts: Options, k: string)
    requires |targets| == |feeds| && !opts.resume
    requires k in dir && !IsPart(k) && k != INDEX
    ensures
      var after, verdicts := DirAfter(dir, targets, feeds, opts), Whole(dir, targets, feeds, opts).verdicts;
      && |verdicts| == |targets| && k in after
      && (after[k] == dir[k] || exists i :: DeliveredAs(verdicts, i, k))
      && (forall i :: DeliveredAs(verdicts, i, k) ==> RecordedFor(ManifestOf(dir), targets[i].talker, k))
  {
    FreshRound(dir, targets, feeds, opts, |targets|);
    IndexPart();
    hide After, RecordedFor, IsPart, DeliveredAs, ManifestOf, DeliveriesOwned;
    var r := Whole(dir, targets, feeds, opts);
    assert Untouched(dir, r, k);
  }

  lemma IndexPart()
    ensures IsPart(PartOf(INDEX))
  {
    assert (INDEX + ".part")[|INDEX|..] == ".part";
  }

  // ---- names stay apart ------------------------------------------------------------------------------

  function EntryStem(e: Entry): string
    requires e.file.Some?
  {
    Fold(StemOf(e.file.value))
  }

  predicate Apart(e: Entry, f: Entry) {
    e.talker != f.talker && e.file.Some? && f.file.Some? ==> EntryStem(e) != EntryStem(f)
  }

  /** No two sessions of the manifest share a name, whatever case or extension. */
  predicate StemsApart(entries: seq<Entry>) {
    forall e, f :: e in entries && f in entries ==> Apart(e, f)
  }

  /** A line of the manifest under way: its name is spoken for, and it is the session's old name or one no
      session had. */
  predicate EntryOk(e: Entry, previous: seq<Entry>, taken: set<string>) {
    && e.file.Some? && EntryStem(e) in taken
    && ((KeepsName(previous, e.talker) && EntryStem(e) == Fold(StemOf(RecordedFile(previous, e.talker).value)))
        || EntryStem(e) !in TakenStems(previous))
  }

  predicate EntriesOk(entries: seq<Entry>, previous: seq<Entry>, taken: set<string>) {
    forall e :: e in entries ==> EntryOk(e, previous, taken)
  }

  /** A name chosen now is the session's old one, or it is free of everything spoken for. */
  lemma NewName(previous: seq<Entry>, target: Target, taken: set<string>)
    requires TakenStems(previous) <= taken
    ensures
      var stem := Fold(StemIn(previous, target, taken));
      && stem != "index"
      && stem in TakenAfter(previous, target, taken) && taken <= TakenAfter(previous, target, taken)
      && (if KeepsName(previous, target.talker) then stem == Fold(StemOf(RecordedFile(previous, target.talker).value))
          else stem !in taken)
  {
    NameIsFree(target, taken);
  }

  /** An entry with the new name stands apart from all the others. */
  lemma NewEntryApart(previous: seq<Entry>, target: Target, taken: set<string>, e: Entry, other: Entry)
    requires StemsApart(previous) && TakenStems(previous) <= taken && EntryOk(other, previous, taken)
    requires e.file.Some? && EntryStem(e) == Fold(StemIn(previous, target, taken))
    requires e.talker == target.talker || !KeepsName(previous, target.talker)
    ensures Apart(e, other) && Apart(other, e)
  {
    NewName(previous, target, taken);
    if e.talker != other.talker && KeepsName(previous, target.talker) && KeepsName(previous, other.talker) {
      LookupIn(previous, target.talker);
      LookupIn(previous, other.talker);
      assert Apart(Lookup(previous, target.talker).value, Lookup(previous, other.talker).value);
    } else if KeepsName(previous, target.talker) {
      LookupIn(previous, target.talker);
      assert EntryStem(Lookup(previous, target.talker).value) in TakenStems(previous);
    }
  }

  lemma EntryJoins(entries: seq<Entry>, previous: seq<Entry>, target: Target, taken: set<string>, e: Entry)
    requires StemsApart(previous) && TakenStems(previous) <= taken
    requires EntriesOk(entries, previous, taken) && StemsApart(entries)
    requires e.file.Some? && EntryStem(e) == Fold(StemIn(previous, target, taken))
    requires e.talker == target.talker || !KeepsName(previous, target.talker)
    ensures
      var taken' := TakenAfter(previous, target, taken);
      EntriesOk(entries + [e], previous, taken') && StemsApart(entries + [e])
  {
    NewName(previous, target, taken);
    var taken' := TakenAfter(previous, target, taken);
    hide TakenAfter, StemIn, KeepsName, TakenStems;
    forall x | x in entries ensures EntryOk(x, previous, taken') && Apart(e, x) && Apart(x, e) {
      assert EntryOk(x, previous, taken);
      NewEntryApart(previous, target, taken, e, x);
    }
    assert EntryOk(e, previous, taken') by { EntryIsOk(previous, target, taken, e); }
    assert forall x :: x in entries + [e] ==> x in entries || x == e;
  }

  lemma EntryIsOk(previous: seq<Entry>, target: Target, taken: set<string>, e: Entry)
    requires TakenStems(previous) <= taken
    requires e.file.Some? && EntryStem(e) == Fold(StemIn(previous, target, taken))
    requires e.talker == target.talker || !KeepsName(previous, target.talker)
    ensures EntryOk(e, previous, TakenAfter(previous, target, taken))
  {
    NewName(previous, target, taken);
  }
}
