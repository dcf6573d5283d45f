/** One export round (`run`, `previous_index`, `write_index` in `src/export.rs`). */
module ExportRuns {
  import opened Wrappers
  import opened Texts
  import opened ExportNames
  import opened ExportWriter

  const INDEX := "index.json"

  datatype Options = Options(format: Format, resume: bool, withMedia: bool)

  /** What became of one target. */
  datatype Verdict = Written(path: string, messages: nat) | Reused | Refused(owner: Option<string>) | Failed

  /** The round under way: the directory, the names spoken for, the paths each session delivered this
      round, the lines of the next manifest, and a verdict for every target done. */
  datatype Round = Round(dir: Dir, taken: set<string>, delivered: map<string, set<string>>, entries: seq<Entry>, verdicts: seq<Verdict>)

  // ---- the manifest of the last round ----------------------------------------------------------

  /** A sorted map from session to manifest line; of two lines for a session the later one counts. */
  function PutEntry(index: seq<Entry>, e: Entry): seq<Entry> {
    if index == [] then [e]
    else if index[0].talker == e.talker then [e] + index[1..]
    else if Less(e.talker, index[0].talker) then [e] + index
    else [index[0]] + PutEntry(index[1..], e)
  }

  function IndexOf(entries: seq<Entry>): seq<Entry> {
    if entries == [] then [] else PutEntry(IndexOf(entries[..|entries| - 1]), entries[|entries| - 1])
  }

  /** No manifest, or one that cannot be read, counts as an empty one. */
  function ManifestOf(dir: Dir): seq<Entry> {
    if INDEX in dir && dir[INDEX].Manifest? then IndexOf(dir[INDEX].entries) else []
  }

  function Lookup(index: seq<Entry>, talker: string): Option<Entry> {
    if index == [] then None
    else if index[0].talker == talker then Some(index[0])
    else Lookup(index[1..], talker)
  }

  predicate Claims(e: Entry, path: string) {
    e.file.Some? && Fold(e.file.value) == Fold(path)
  }

  /** The first session, in the order of the map, whose line names this file. */
  function Owner(index: seq<Entry>, path: string): Option<Entry> {
    if index == [] then None
    else if Claims(index[0], path) then Some(index[0])
    else Owner(index[1..], path)
  }

  function RecordedFile(index: seq<Entry>, talker: string): Option<string> {
    var e := Lookup(index, talker);
    if e.Some? then e.value.file else None
  }

  /** The file names the last round gave out, without their extensions. */
  function TakenStems(index: seq<Entry>): set<string> {
    set e | e in index && e.file.Some? :: Fold(StemOf(e.file.value))
  }

  // ---- one target -------------------------------------------------------------------------------

  /** A session keeps the name the manifest gave it, except that no session may be called `index`. */
  function KeepsName(previous: seq<Entry>, talker: string): bool {
    var file := RecordedFile(previous, talker);
    file.Some? && Fold(StemOf(file.value)) != "index"
  }

  function StemIn(previous: seq<Entry>, target: Target, taken: set<string>): string {
    if KeepsName(previous, target.talker) then StemOf(RecordedFile(previous, target.talker).value)
    else NameFor(target, taken)
  }

  function TakenAfter(previous: seq<Entry>, target: Target, taken: set<string>): set<string> {
    var stem := StemIn(previous, target, taken);
    if KeepsName(previous, target.talker) then taken + {Fold(stem)} else taken + {"index"} + {Fold(stem)}
  }

  function DeliveredBy(delivered: map<string, set<string>>, talker: string): set<string> {
    if talker in delivered then delivered[talker] else {}
  }

  /** Outside a resume, an existing file may be replaced only by the session it belongs to. */
  predicate MayReplace(r: Round, recorded: seq<Entry>, target: Target, path: string) {
    || (Owner(recorded, path).Some? && Owner(recorded, path).value.talker == target.talker)
    || path in DeliveredBy(r.delivered, target.talker)
  }

  /** A resume reuses a file only if the manifest records it for this session under this very name, no
      part file is left, media were kept if this round wants them, and its end is intact. */
  predicate CanReuse(r: Round, previous: seq<Entry>, target: Target, path: string, opts: Options) {
    && RecordedFile(previous, target.talker) == Some(path)
    && Fold(PartOf(path)) !in r.dir
    && (opts.withMedia ==> Lookup(previous, target.talker).value.withMedia == Some(true))
    && IsComplete(r.dir, path, opts.format)
  }

  function HasEntry(entries: seq<Entry>, talker: string): bool {
    exists e :: e in entries && e.talker == talker
  }

  function Deliver(r: Round, target: Target, path: string): Round {
    r.(delivered := r.delivered[target.talker := DeliveredBy(r.delivered, target.talker) + {path}])
  }

  function Refuse(r: Round, owner: Option<Entry>): Round {
    r.(entries := if owner.Some? && !HasEntry(r.entries, owner.value.talker) then r.entries + [owner.value] else r.entries,
       verdicts := r.verdicts + [Refused(if owner.Some? then Some(owner.value.talker) else None)])
  }

  function Reuse(r: Round, e: Entry, target: Target, path: string): Round {
    Deliver(r, target, path).(entries := r.entries + [e], verdicts := r.verdicts + [Reused])
  }

  function NewEntry(target: Target, path: string, messages: nat, opts: Options): Entry {
    Entry.Entry(target.talker, Some(path), messages, target.displayName, Some(opts.withMedia))
  }

  function WriteOut(r: Round, target: Target, stem: string, feed: Feed, opts: Options): Round {
    var path := PathOf(stem, opts.format);
    var (dir, written) := WriteSession(r.dir, target, stem, feed, opts.format);
    if written.None? then r.(dir := dir, verdicts := r.verdicts + [Failed])
    else
      Deliver(r, target, path).(dir := dir, entries := r.entries + [NewEntry(target, path, written.value, opts)],
                                verdicts := r.verdicts + [Written(path, written.value)])
  }

  function ExportOne(r: Round, previous: seq<Entry>, recorded: seq<Entry>, target: Target, feed: Feed, opts: Options): Round {
    var stem := StemIn(previous, target, r.taken);
    var path := PathOf(stem, opts.format);
    var named := r.(taken := TakenAfter(previous, target, r.taken));
    if !opts.resume && Fold(path) in r.dir && !MayReplace(r, recorded, target, path) then Refuse(named, Owner(recorded, path))
    else if opts.resume && Fold(path) in r.dir && CanReuse(r, previous, target, path, opts) then
      Reuse(named, Lookup(previous, target.talker).value, target, path)
    else WriteOut(named, target, stem, feed, opts)
  }

  // ---- the round ---------------------------------------------------------------------------------

  function Previous(dir: Dir, opts: Options): seq<Entry> {
    if opts.resume then ManifestOf(dir) else []
  }

  function Start(dir: Dir, opts: Options): Round {
    Round.Round(dir, TakenStems(Previous(dir, opts)), map[], [], [])
  }

  /** The round after its first `n` targets. */
  function After(dir: Dir, targets: seq<Target>, feeds: seq<Feed>, opts: Options, n: nat): Round
    requires n <= |targets| == |feeds|
  {
    if n == 0 then Start(dir, opts)
    else
      ExportOne(After(dir, targets, feeds, opts, n - 1), Previous(dir, opts), ManifestOf(dir), targets[n - 1], feeds[n - 1], opts)
  }

  lemma AfterNone(dir: Dir, targets: seq<Target>, feeds: seq<Feed>, opts: Options)
    requires |targets| == |feeds|
    ensures After(dir, targets, feeds, opts, 0) == Round.Round(dir, TakenStems(Previous(dir, opts)), map[], [], [])
  {
    hide ExportOne, Previous, ManifestOf;
  }

  lemma AfterOneMore(dir: Dir, targets: seq<Target>, feeds: seq<Feed>, opts: Options, n: nat)
    requires n < |targets| == |feeds|
    ensures After(dir, targets, feeds, opts, n + 1)
         == ExportOne(After(dir, targets, feeds, opts, n), Previous(dir, opts), ManifestOf(dir), targets[n], feeds[n], opts)
  {
    hide ExportOne, Start, Previous, ManifestOf;
  }

  /** The new manifest replaces the old one, again by way of a part file. */
  function Finished(r: Round): Dir {
    (r.dir - {PartOf(INDEX)})[INDEX := Manifest(r.entries)]
  }

  function Whole(dir: Dir, targets: seq<Target>, feeds: seq<Feed>, opts: Options): Round
    requires |targets| == |feeds|
  {
    After(dir, targets, feeds, opts, |targets|)
  }

  function DirAfter(dir: Dir, targets: seq<Target>, feeds: seq<Feed>, opts: Options): Dir
    requires |targets| == |feeds|
  {
    Finished(Whole(dir, targets, feeds, opts))
  }

  datatype Outcome = Outcome(written: seq<string>, reused: seq<string>, skipped: seq<string>, messages: nat)

  /** A session refused twice is skipped once. */
  function Add(o: Outcome, talker: string, verdict: Verdict): Outcome {
    match verdict
    case Written(path, messages) => o.(written := o.written + [path], messages := o.messages + messages)
    case Reused => o.(reused := o.reused + [talker])
    case Refused(_) => if talker in o.skipped then o else o.(skipped := o.skipped + [talker])
    case Failed => o.(skipped := o.skipped + [talker])
  }

  /** What the round reports, from its verdicts. */
  function Report(targets: seq<Target>, verdicts: seq<Verdict>): Outcome
    requires |verdicts| <= |targets|
  {
    if verdicts == [] then Outcome.Outcome([], [], [], 0)
    else
      var n := |verdicts| - 1;
      Add(Report(targets, verdicts[..n]), targets[n].talker, verdicts[n])
  }

  // ---- the method --------------------------------------------------------------------------------

  class ExportRound {
    const disk: Disk
    const opts: Options
    const previous: seq<Entry>
    const recorded: seq<Entry>
    var taken: set<string>
    var delivered: map<string, set<string>>
    var entries: seq<Entry>
    var written: seq<string>
    var reused: seq<string>
    var skipped: seq<string>
    var messages: nat
    ghost var verdicts: seq<Verdict>

    ghost function Value(): Round
      reads this, disk
    {
      Round.Round(disk.files, taken, delivered, entries, verdicts)
    }

    ghost function Reported(): Outcome
      reads this
    {
      Outcome.Outcome(written, reused, skipped, messages)
    }

    constructor (disk: Disk, opts: Options)
      ensures this.disk == disk && this.opts == opts && Value() == Start(disk.files, opts)
      ensures previous == Previous(disk.files, opts) && recorded == ManifestOf(disk.files)
      ensures Reported() == Outcome.Outcome([], [], [], 0)
    {
      this.disk, this.opts := disk, opts;
      var index := ManifestOf(disk.files);
      recorded := index;
      previous := if opts.resume then index else [];
      taken := TakenStems(if opts.resume then index else []);
      delivered, entries, verdicts := map[], [], [];
      written, reused, skipped, messages := [], [], [], 0;
    }

    /** The name of this target, which is then spoken for. */
    method Name(target: Target) returns (stem: string)
      modifies this`taken
      ensures stem == StemIn(previous, target, old(taken)) && taken == TakenAfter(previous, target, old(taken))
    {
      var file := RecordedFile(previous, target.talker);
      if file.Some? {
        stem := StemOf(file.value);
        if Fold(stem) != "index" {
          taken := taken + {Fold(stem)};
          return;
        }
      }
      stem, taken := FileNameFor(target, taken);
    }

    method RefuseTarget(target: Target, path: string)
      modifies this
      ensures Value() == Refuse(old(Value()), Owner(recorded, path))
      ensures Reported() == Add(old(Reported()), target.talker, Refused(None))
    {
      var owner := Owner(recorded, path);
      if owner.Some? && !HasEntry(entries, owner.value.talker) {
        entries := entries + [owner.value];
      }
      if target.talker !in skipped {
        skipped := skipped + [target.talker];
      }
      verdicts := verdicts + [Refused(if owner.Some? then Some(owner.value.talker) else None)];
    }

    method ReuseFile(target: Target, path: string)
      requires Lookup(previous, target.talker).Some?
      modifies this
      ensures Value() == Reuse(old(Value()), Lookup(previous, target.talker).value, target, path)
      ensures Reported() == Add(old(Reported()), target.talker, Reused)
    {
      reused := reused + [target.talker];
      entries := entries + [Lookup(previous, target.talker).value];
      delivered := delivered[target.talker := DeliveredBy(delivered, target.talker) + {path}];
      verdicts := verdicts + [Reused];
    }

    method WriteFile(target: Target, stem: string, feed: Feed)
      modifies this, disk
      ensures Value() == WriteOut(old(Value()), target, stem, feed, opts)
      ensures |verdicts| == |old(verdicts)| + 1
      ensures Reported() == Add(old(Reported()), target.talker, verdicts[|old(verdicts)|])
    {
      hide FileHolds;
      var path := PathOf(stem, opts.format);
      var n := ExportSession(disk, target, stem, feed, opts.format);
      if n.None? {
        skipped := skipped + [target.talker];
        verdicts := verdicts + [Failed];
        return;
      }
      messages := messages + n.value;
      written := written + [path];
      delivered := delivered[target.talker := DeliveredBy(delivered, target.talker) + {path}];
      entries := entries + [NewEntry(target, path, n.value, opts)];
      verdicts := verdicts + [Written(path, n.value)];
    }

    method One(target: Target, feed: Feed)
      modifies this, disk
      ensures Value() == ExportOne(old(Value()), previous, recorded, target, feed, opts)
      ensures |verdicts| == |old(verdicts)| + 1
      ensures Reported() == Add(old(Reported()), target.talker, verdicts[|old(verdicts)|])
    {
      hide WriteSession, TakenAfter, StemIn, Owner, Lookup;
      ghost var start := Value();
      var stem := Name(target);
      var path := PathOf(stem, opts.format);
      if !opts.resume && Fold(path) in disk.files {
        var owner := Owner(recorded, path);
        var ownRerun := owner.Some? && owner.value.talker == target.talker;
        var thisRound := path in DeliveredBy(delivered, target.talker);
        if !ownRerun && !thisRound {
          RefuseTarget(target, path);
          return;
        }
      }
      if opts.resume && Fold(path) in disk.files {
        var before := Lookup(previous, target.talker);
        var sameName := before.Some? && before.value.file == Some(path);
        var partLeft := Fold(PartOf(path)) in disk.files;
        var mediaKept := !opts.withMedia || (before.Some? && before.value.withMedia == Some(true));
        if sameName && !partLeft && mediaKept && IsComplete(disk.files, path, opts.format) {
          ReuseFile(target, path);
          return;
        }
      }
      WriteFile(target, stem, feed);
    }
  }

  /** The whole round, over what outside it decides for each session. */
  method Run(disk: Disk, targets: seq<Target>, feeds: seq<Feed>, opts: Options) returns (outcome: Outcome)
    requires |targets| == |feeds|
    modifies disk
    ensures disk.files == DirAfter(old(disk.files), targets, feeds, opts)
    ensures
      var verdicts := Whole(old(disk.files), targets, feeds, opts).verdicts;
      |verdicts| == |targets| && outcome == Report(targets, verdicts)
  {
    hide ExportOne;
    ghost var dir := disk.files;
    var round := new ExportRound(disk, opts);
    var i := 0;
    while i < |targets|
      invariant 0 <= i <= |targets| && round.disk == disk && round.opts == opts && fresh(round)
      invariant round.previous == Previous(dir, opts) && round.recorded == ManifestOf(dir)
      invariant round.Value() == After(dir, targets, feeds, opts, i)
      invariant |round.verdicts| == i && round.Reported() == Report(targets, round.verdicts)
    {
      ghost var before := round.verdicts;
      round.One(targets[i], feeds[i]);
      OneMoreVerdict(After(dir, targets, feeds, opts, i), round.previous, round.recorded, targets[i], feeds[i], opts);
      assert round.verdicts[..i] == before;
      i := i + 1;
    }
    FoldFixes(INDEX);
    FoldFixes(PartOf(INDEX));
    disk.Remove(PartOf(INDEX));
    disk.Write(INDEX, Manifest(round.entries));
    outcome := Outcome.Outcome(round.written, round.reused, round.skipped, round.messages);
  }

  /** Every target gets one verdict, and the earlier ones stay. */
  lemma OneMoreVerdict(r: Round, previous: seq<Entry>, recorded: seq<Entry>, target: Target, feed: Feed, opts: Options)
    ensures
      var r' := ExportOne(r, previous, recorded, target, feed, opts);
      |r'.verdicts| == |r.verdicts| + 1 && r'.verdicts[..|r.verdicts|] == r.verdicts
  {
    hide WriteSession, TakenAfter, StemIn, Owner, Lookup, MayReplace, CanReuse;
  }
}
