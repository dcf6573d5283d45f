/** What becomes of every target of a round that is no resume, said before the round: from the directory it
    finds, the targets and what there is to fetch. */
module ExportFresh {
  import opened Wrappers
  import opened Texts
  import opened PathSafe
  import opened ExportNames
  import opened ExportWriter
  import opened ExportRuns
  import opened ExportSafety
  import opened ExportResumes

  // ---- names and verdicts, before the round ---------------------------------------------------------

  /** The names spoken for when `n` targets of a fresh round have been named. */
  function NamesTaken(targets: seq<Target>, n: nat): set<string>
    requires n <= |targets|
  {
    if n == 0 then {} else TakenAfter([], targets[n - 1], NamesTaken(targets, n - 1))
  }

  /** The path of a target: it depends on the targets up to it alone. */
  function FreshPath(targets: seq<Target>, format: Format, i: nat): string
    requires i < |targets|
  {
    PathOf(StemIn([], targets[i], NamesTaken(targets, i)), format)
  }

  /** The session can be fetched, written and renamed. */
  predicate CanWrite(feed: Feed, format: Format) {
    (format.JsonLines? ==> feed.createOk) && feed.fetchOk && feed.flushOk && feed.renameOk
  }

  /** The path is free, or the first manifest line that claims it is the target's own. */
  predicate MayTake(dir: Dir, talker: string, path: string) {
    Fold(path) in dir ==> var owner := Owner(ManifestOf(dir), path); owner.Some? && owner.value.talker == talker
  }

  function FreshVerdict(dir: Dir, targets: seq<Target>, feeds: seq<Feed>, format: Format, i: nat): Verdict
    requires i < |targets| == |feeds|
  {
    var path := FreshPath(targets, format, i);
    if !MayTake(dir, targets[i].talker, path) then
      var owner := Owner(ManifestOf(dir), path);
      Refused(if owner.Some? then Some(owner.value.talker) else None)
    else if CanWrite(feeds[i], format) then Written(path, Total(feeds[i].pages))
    else Failed
  }

  // ---- paths differ ---------------------------------------------------------------------------------

  lemma {:induction false} NamesStayTaken(targets: seq<Target>, i: nat, n: nat)
    requires i < n <= |targets|
    ensures Fold(StemIn([], targets[i], NamesTaken(targets, i))) in NamesTaken(targets, n)
  {
    hide StemIn, Fold;
    if i < n - 1 {
      NamesStayTaken(targets, i, n - 1);
    }
  }

  /** Within a fresh round no two targets have the same path, whatever the case. */
  lemma FreshPathsDiffer(targets: seq<Target>, format: Format, i: nat, j: nat)
    requires i < j < |targets|
    ensures Fold(FreshPath(targets, format, i)) != Fold(FreshPath(targets, format, j))
  {
    var stem, stem' := StemIn([], targets[i], NamesTaken(targets, i)), StemIn([], targets[j], NamesTaken(targets, j));
    NamesStayTaken(targets, i, j);
    NewName([], targets[j], NamesTaken(targets, j));
    hide NamesTaken, StemIn, TakenAfter, Fold, PathOf;
    PathsApart(stem, stem', format);
  }

  // ---- the round keeps to them ----------------------------------------------------------------------

  /** The path of target `j` is there in a state of the round exactly if it was there before. */
  predicate AsBefore(dir: Dir, now: Dir, name: string) {
    name in now <==> name in dir
  }

  predicate IsPathOf(targets: seq<Target>, format: Format, i: int, n: nat, path: string)
    requires n <= |targets|
  {
    0 <= i < n && FreshPath(targets, format, i) == path
  }

  ghost predicate EarlierPath(targets: seq<Target>, format: Format, n: nat, path: string)
    requires n <= |targets|
  {
    exists i :: IsPathOf(targets, format, i, n, path)
  }

  /** What was delivered so far went to paths of earlier targets. */
  ghost predicate DeliveredEarlier(r: Round, targets: seq<Target>, format: Format, n: nat)
    requires n <= |targets|
  {
    forall t, p :: t in r.delivered && p in r.delivered[t] ==> EarlierPath(targets, format, n, p)
  }

  /** The round after its first `n` targets: named as foreseen, and nothing done yet to the paths to come. */
  ghost predicate OnCourse(dir: Dir, r: Round, targets: seq<Target>, format: Format, n: nat)
    requires n <= |targets|
  {
    && r.taken == NamesTaken(targets, n)
    && DeliveredEarlier(r, targets, format, n)
    && forall j :: n <= j < |targets| ==> AsBefore(dir, r.dir, Fold(FreshPath(targets, format, j)))
  }

  lemma NotDeliveredYet(r: Round, targets: seq<Target>, format: Format, n: nat)
    requires n < |targets| && DeliveredEarlier(r, targets, format, n)
    ensures FreshPath(targets, format, n) !in DeliveredBy(r.delivered, targets[n].talker)
  {
    hide FreshPath, Fold;
    var path := FreshPath(targets, format, n);
    if path in DeliveredBy(r.delivered, targets[n].talker) {
      assert EarlierPath(targets, format, n, path);
      var i :| IsPathOf(targets, format, i, n, path);
      FreshPathsDiffer(targets, format, i, n);
    }
  }

  /** One step on course gives the verdict foreseen. */
  lemma CourseVerdict(dir: Dir, r: Round, targets: seq<Target>, feeds: seq<Feed>, opts: Options, n: nat)
    requires n < |targets| == |feeds| && !opts.resume && OnCourse(dir, r, targets, opts.format, n)
    ensures LastVerdict(r, [], ManifestOf(dir), targets[n], feeds[n], opts) == FreshVerdict(dir, targets, feeds, opts.format, n)
  {
    NotDeliveredYet(r, targets, opts.format, n);
    assert AsBefore(dir, r.dir, Fold(FreshPath(targets, opts.format, n)));
    hide ManifestOf, Owner, StemIn, TakenAfter, Fold, NamesTaken, DeliveredBy, Delivered, Total, DeliveredEarlier;
  }

  lemma DeliveredLater(r: Round, targets: seq<Target>, feed: Feed, recorded: seq<Entry>, opts: Options, n: nat)
    requires n < |targets| && !opts.resume && r.taken == NamesTaken(targets, n)
    requires DeliveredEarlier(r, targets, opts.format, n)
    ensures DeliveredEarlier(ExportOne(r, [], recorded, targets[n], feed, opts), targets, opts.format, n + 1)
  {
    hide WriteSession, TakenAfter, StemIn, Owner, MayReplace, Fold, PathOf, NamesTaken;
    var r' := ExportOne(r, [], recorded, targets[n], feed, opts);
    forall t, p | t in r'.delivered && p in r'.delivered[t] ensures EarlierPath(targets, opts.format, n + 1, p) {
      if t in r.delivered && p in r.delivered[t] {
        assert EarlierPath(targets, opts.format, n, p);
        var i :| IsPathOf(targets, opts.format, i, n, p);
        assert IsPathOf(targets, opts.format, i, n + 1, p);
      } else {
        assert IsPathOf(targets, opts.format, n, n + 1, p);
      }
    }
  }

  lemma LaterPathAsBefore(dir: Dir, r: Round, targets: seq<Target>, feed: Feed, opts: Options, n: nat, j: nat)
    requires n < j < |targets| && !opts.resume && OnCourse(dir, r, targets, opts.format, n)
    ensures AsBefore(dir, ExportOne(r, [], ManifestOf(dir), targets[n], feed, opts).dir, Fold(FreshPath(targets, opts.format, j)))
  {
    var k := Fold(FreshPath(targets, opts.format, j));
    PathIsNoPart(StemIn([], targets[j], NamesTaken(targets, j)), opts.format);
    assert AsBefore(dir, r.dir, k);
    FreshPathsDiffer(targets, opts.format, n, j);
    hide ManifestOf, ExportOne, StemIn, NamesTaken, Fold, PathOf, IsPart, DeliveredEarlier;
    StepTouchesItsPath(r, [], ManifestOf(dir), targets[n], feed, opts, k);
  }

  lemma CourseStep(dir: Dir, r: Round, targets: seq<Target>, feed: Feed, opts: Options, n: nat)
    requires n < |targets| && !opts.resume && OnCourse(dir, r, targets, opts.format, n)
    ensures OnCourse(dir, ExportOne(r, [], ManifestOf(dir), targets[n], feed, opts), targets, opts.format, n + 1)
  {
    AddedEntry(r, [], ManifestOf(dir), targets[n], feed, opts);
    DeliveredLater(r, targets, feed, ManifestOf(dir), opts, n);
    hide ManifestOf, ExportOne, StemIn, TakenAfter, Fold, FreshPath, DeliveredEarlier, AsBefore;
    var r' := ExportOne(r, [], ManifestOf(dir), targets[n], feed, opts);
    forall j | n + 1 <= j < |targets| ensures AsBefore(dir, r'.dir, Fold(FreshPath(targets, opts.format, j))) {
      LaterPathAsBefore(dir, r, targets, feed, opts, n, j);
    }
  }

  lemma CourseBegins(dir: Dir, targets: seq<Target>, feeds: seq<Feed>, opts: Options)
    requires |targets| == |feeds| && !opts.resume
    ensures OnCourse(dir, After(dir, targets, feeds, opts, 0), targets, opts.format, 0)
  {
    hide After, ManifestOf, FreshPath, Fold, StemOf;
    AfterNone(dir, targets, feeds, opts);
  }

  lemma CourseGoesOn(dir: Dir, targets: seq<Target>, feeds: seq<Feed>, opts: Options, n: nat)
    requires n < |targets| == |feeds| && !opts.resume
    requires OnCourse(dir, After(dir, targets, feeds, opts, n), targets, opts.format, n)
    ensures OnCourse(dir, After(dir, targets, feeds, opts, n + 1), targets, opts.format, n + 1)
  {
    hide After, ExportOne, ManifestOf, OnCourse;
    AfterOneMore(dir, targets, feeds, opts, n);
    CourseStep(dir, After(dir, targets, feeds, opts, n), targets, feeds[n], opts, n);
  }

  lemma {:induction false} CourseIsKept(dir: Dir, targets: seq<Target>, feeds: seq<Feed>, opts: Options, n: nat)
    requires n <= |targets| == |feeds| && !opts.resume
    ensures OnCourse(dir, After(dir, targets, feeds, opts, n), targets, opts.format, n)
  {
    hide After, OnCourse;
    if n == 0 {
      CourseBegins(dir, targets, feeds, opts);
    } else {
      CourseIsKept(dir, targets, feeds, opts, n - 1);
      CourseGoesOn(dir, targets, feeds, opts, n - 1);
    }
  }

  /** What becomes of each target of a fresh round can be said before it: refused if a file of its name is
      there that the manifest does not record for it first, else written if it can be, else failed. */
  lemma FreshVerdicts(dir: Dir, targets: seq<Target>, feeds: seq<Feed>, opts: Options, i: nat)
    requires i < |targets| == |feeds| && !opts.resume
    ensures
      var verdicts := Whole(dir, targets, feeds, opts).verdicts;
      |verdicts| == |targets| && verdicts[i] == FreshVerdict(dir, targets, feeds, opts.format, i)
    ensures RoundPath(dir, targets, feeds, opts, i) == FreshPath(targets, opts.format, i)
  {
    hide ManifestOf, After, FreshVerdict;
    VerdictAtEnd(dir, targets, feeds, opts, i);
    CourseIsKept(dir, targets, feeds, opts, i);
    CourseVerdict(dir, After(dir, targets, feeds, opts, i), targets, feeds, opts, i);
  }

  // ---- the file a target is refused for -----------------------------------------------------------------

  /** Target `j` is of this session and will be written. */
  predicate WillDeliver(dir: Dir, targets: seq<Target>, feeds: seq<Feed>, format: Format, talker: string, j: int)
    requires |targets| == |feeds|
  {
    && 0 <= j < |targets| && targets[j].talker == talker
    && MayTake(dir, talker, FreshPath(targets, format, j)) && CanWrite(feeds[j], format)
  }

  /** When a file that a target is refused for stays recorded for its owner: exactly when no target of the
      owner can be written to a path of its own. */
  lemma RefusedFileStaysRecordedIff(dir: Dir, targets: seq<Target>, feeds: seq<Feed>, opts: Options, i: nat)
    requires i < |targets| == |feeds| && !opts.resume
    ensures
      var path := FreshPath(targets, opts.format, i);
      var owner := Owner(ManifestOf(dir), path);
      Fold(path) in dir && owner.Some? && owner.value.talker != targets[i].talker ==>
        (RecordedFor(ManifestOf(DirAfter(dir, targets, feeds, opts)), owner.value.talker, Fold(path))
         <==> forall j :: !WillDeliver(dir, targets, feeds, opts.format, owner.value.talker, j))
  {
    FreshVerdicts(dir, targets, feeds, opts, i);
    RefusedFileStaysUnlessDelivered(dir, targets, feeds, opts, i);
    var path := FreshPath(targets, opts.format, i);
    var owner := Owner(ManifestOf(dir), path);
    hide ManifestOf, After, DirAfter, FreshPath, Owner, RecordedFor, Lookup, Fold;
    if Fold(path) in dir && owner.Some? && owner.value.talker != targets[i].talker {
      DeliversIff(dir, targets, feeds, opts, owner.value.talker);
    }
  }

  lemma DeliversIff(dir: Dir, targets: seq<Target>, feeds: seq<Feed>, opts: Options, talker: string)
    requires |targets| == |feeds| && !opts.resume
    ensures Delivers(Whole(dir, targets, feeds, opts).verdicts, targets, talker)
            <==> exists j :: WillDeliver(dir, targets, feeds, opts.format, talker, j)
  {
    VerdictCount(dir, targets, feeds, opts, |targets|);
    hide ManifestOf, After, FreshPath, MayTake, CanWrite;
    var verdicts := Whole(dir, targets, feeds, opts).verdicts;
    forall j ensures WrittenFor(verdicts, targets, j, talker) <==> WillDeliver(dir, targets, feeds, opts.format, talker, j) {
      if 0 <= j < |targets| {
        FreshVerdicts(dir, targets, feeds, opts, j);
      }
    }
  }

  // ---- an input ------------------------------------------------------------------------------------------

  lemma LetterSlug(name: string)
    requires |name| == 1 && 'a' <= name[0] <= 'z'
    ensures Slugify(name, "") == name
  {
    assert IsSlug(name);
    if IsReservedDevice(name) {
      SlugIsDeviceOnlyIf(name);
    }
    hide IsReservedDevice;
    var chars := Take(name, SLUG_MAX);
    var slug := seq(|chars|, i requires 0 <= i < |chars| => if IsSlugChar(chars[i]) then chars[i] else '_');
    assert slug == name;
  }

  lemma LetterStem(target: Target)
    requires |target.displayName| == 1 && 'a' <= target.displayName[0] <= 'z'
    ensures StemFor(target) == target.displayName && Fold(target.displayName) == target.displayName
  {
    var name := target.displayName;
    LetterSlug(name);
    hide Slugify;
    assert name[0] in name && IsAlphanumeric(name[0]);
    assert Take(name, STEM_MAX) == name;
  }

  /** A session shown as one small letter is called so while that name is free. */
  lemma LetterName(target: Target, taken: set<string>)
    requires |target.displayName| == 1 && 'a' <= target.displayName[0] <= 'z' && target.displayName !in taken
    ensures NameFor(target, taken) == target.displayName
  {
    LetterStem(target);
    hide StemFor, Slugify, Fold;
    var name, all := target.displayName, taken + {"index"};
    FoldOfCandidate(name, 1);
    assert |name| != |"index"| && name !in all;
    assert FreeFrom(name, 1, all, all) == 1;
  }

  lemma LetterPath(c: char, format: Format)
    requires 'a' <= c <= 'z'
    ensures PathOf([c], format) == [c] + "." + Extension(format) && Fold(PathOf([c], format)) == PathOf([c], format)
  {
    hide Fold;
    FoldFixes(PathOf([c], format));
  }

  /** Session `a` is recorded with `b.jsonl`. Exported as `a` in front of a session shown as `b`, it gets a
      file of its own; `b` is refused for the sake of `a`, and nothing records the file for `a` any longer. */
  lemma RefusedFileIsForgotten(line: Entry, c: Content, feeds: seq<Feed>, withMedia: bool)
    requires line.talker == "a" && line.file == Some("b.jsonl")
    requires |feeds| == 2 && forall f :: f in feeds ==> CanWrite(f, JsonLines)
    ensures
      var dir, targets := map[INDEX := Manifest([line]), "b.jsonl" := c], [Target("a", "a"), Target("b", "b")];
      var opts := Options(JsonLines, false, withMedia);
      var verdicts, manifest := Whole(dir, targets, feeds, opts).verdicts, ManifestOf(DirAfter(dir, targets, feeds, opts));
      && |verdicts| == 2 && verdicts[0].Written? && verdicts[1] == Refused(Some("a"))
      && RecordedFor(ManifestOf(dir), "a", "b.jsonl") && !RecordedFor(manifest, "a", "b.jsonl")
  {
    var dir, targets := map[INDEX := Manifest([line]), "b.jsonl" := c], [Target("a", "a"), Target("b", "b")];
    var opts := Options(JsonLines, false, withMedia);
    ManifestOfOne(dir, line);
    TwoLetterPaths(targets);
    OwnersOfLine(line);
    assert "a.jsonl"[0] != "b.jsonl"[0] && |"a.jsonl"| != |INDEX|;
    hide ManifestOf, FreshPath, Owner, After, DirAfter, RecordedFor, CanWrite, Fold, Whole;
    assert feeds[0] in feeds;
    assert WillDeliver(dir, targets, feeds, JsonLines, "a", 0);
    FreshVerdicts(dir, targets, feeds, opts, 0);
    FreshVerdicts(dir, targets, feeds, opts, 1);
    hide WillDeliver;
    RefusedFileStaysRecordedIff(dir, targets, feeds, opts, 1);
  }

  lemma ManifestOfOne(dir: Dir, line: Entry)
    requires INDEX in dir && dir[INDEX] == Manifest([line])
    ensures ManifestOf(dir) == [line]
  {
    assert [line][..0] == [];
    assert IndexOf([line]) == PutEntry(IndexOf([]), line) == [line];
  }

  lemma TwoLetterPaths(targets: seq<Target>)
    requires targets == [Target("a", "a"), Target("b", "b")]
    ensures FreshPath(targets, JsonLines, 0) == "a.jsonl" && Fold("a.jsonl") == "a.jsonl"
    ensures FreshPath(targets, JsonLines, 1) == "b.jsonl" && Fold("b.jsonl") == "b.jsonl"
  {
    hide NameFor, Fold, StemFor, FreshPath, TakenAfter;
    LetterStem(targets[0]);
    LetterStem(targets[1]);
    LetterPath('a', JsonLines);
    LetterPath('b', JsonLines);
    FoldFixes("b.jsonl");
    FirstPaths(targets);
  }

  /** The names of two targets, one after the other. */
  lemma FirstPaths(targets: seq<Target>)
    requires targets == [Target("a", "a"), Target("b", "b")]
    ensures FreshPath(targets, JsonLines, 0) == PathOf("a", JsonLines)
    ensures FreshPath(targets, JsonLines, 1) == PathOf("b", JsonLines)
  {
    hide NameFor, Fold, StemFor, PathOf;
    LetterStem(targets[0]);
    LetterName(targets[0], {});
    assert NamesTaken(targets, 1) == {"index", "a"};
    assert |"b"| != |"index"| && "b"[0] != "a"[0];
    LetterName(targets[1], {"index", "a"});
  }

  lemma OwnersOfLine(line: Entry)
    requires line.talker == "a" && line.file == Some("b.jsonl")
    ensures Owner([line], "b.jsonl") == Some(line) && RecordedFor([line], "a", Fold("b.jsonl"))
  {
    hide Fold;
  }
}
