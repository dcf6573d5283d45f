/** File names of exported sessions (`file_name_for` in `src/export.rs`). */
module ExportNames {
  import opened Decimals
  import opened Texts
  import opened PathSafe

  const STEM_MAX: nat := 56
  const U32_MAX: nat := 0xFFFF_FFFF

  datatype Target = Target(talker: string, displayName: string)

  /** The stem a session would like to have: its display name, or its id when folding left nothing readable. */
  function StemFor(target: Target): string {
    var display := Slugify(target.displayName, "");
    var base := if exists c :: c in display && IsAlphanumeric(c) then display else Slugify(target.talker, "session");
    var stem := Take(base, STEM_MAX);
    if stem == [] then "session" else stem
  }

  /** The names tried one after the other: `stem`, `stem-2`, `stem-3`, ... */
  function Candidate(stem: string, n: nat): string {
    if n <= 1 then stem else stem + "-" + Print(n)
  }

  lemma FoldOfCandidate(stem: string, n: nat)
    ensures n > 1 ==> Fold(Candidate(stem, n)) == Fold(stem) + "-" + Print(n)
    ensures n <= 1 ==> Fold(Candidate(stem, n)) == Fold(stem)
  {
    FoldConcat(stem + "-", Print(n));
    FoldConcat(stem, "-");
    FoldFixes("-");
    FoldFixes(Print(n));
  }

  /** No two candidates are the same file name, whatever the case. */
  lemma CandidatesDiffer(stem: string, m: nat, n: nat)
    requires 0 < m < n
    ensures Fold(Candidate(stem, m)) != Fold(Candidate(stem, n))
  {
    FoldOfCandidate(stem, m);
    FoldOfCandidate(stem, n);
    if m > 1 {
      ValueOfPrint(m);
      ValueOfPrint(n);
      var prefix := |stem| + 1;
      assert (Fold(stem) + "-" + Print(m))[prefix..] == Print(m);
      assert (Fold(stem) + "-" + Print(n))[prefix..] == Print(n);
    }
  }

  /** All candidates from the `n`-th on that are taken are still in `left`. */
  ghost predicate Untried(stem: string, n: nat, taken: set<string>, left: set<string>) {
    forall m: nat :: n <= m && Fold(Candidate(stem, m)) in taken ==> Fold(Candidate(stem, m)) in left
  }

  lemma UntriedNext(stem: string, n: nat, taken: set<string>, left: set<string>)
    requires n > 0 && Untried(stem, n, taken, left)
    ensures Untried(stem, n + 1, taken, left - {Fold(Candidate(stem, n))})
  {
    forall m: nat | n + 1 <= m && Fold(Candidate(stem, m)) in taken
      ensures Fold(Candidate(stem, m)) in left - {Fold(Candidate(stem, n))}
    {
      CandidatesDiffer(stem, n, m);
    }
  }

  /** The first free candidate from the `n`-th on. The search ends because the names differ and only so
      many are taken. */
  function FreeFrom(stem: string, n: nat, taken: set<string>, ghost left: set<string>): (k: nat)
    requires n > 0 && Untried(stem, n, taken, left)
    ensures n <= k <= n + |left|
    ensures Fold(Candidate(stem, k)) !in taken
    ensures forall m :: n <= m < k ==> Fold(Candidate(stem, m)) in taken
    decreases |left|
  {
    if Fold(Candidate(stem, n)) !in taken then n
    else
      UntriedNext(stem, n, taken, left);
      assert Fold(Candidate(stem, n)) in left;
      FreeFrom(stem, n + 1, taken, left - {Fold(Candidate(stem, n))})
  }

  function NameFor(target: Target, taken: set<string>): (name: string)
  {
    var all := taken + {"index"};
    Candidate(StemFor(target), FreeFrom(StemFor(target), 1, all, all))
  }

  method FileNameFor(target: Target, taken: set<string>) returns (name: string, taken': set<string>)
    ensures name == NameFor(target, taken)
    ensures taken' == taken + {"index"} + {Fold(name)}
  {
    var stem := StemFor(target);
    var all := taken + {"index"};
    ghost var left := all;
    name := stem;
    var n := 2;
    while Fold(name) in all
      invariant n >= 2 && name == Candidate(stem, n - 1)
      invariant left <= all && Untried(stem, n - 1, all, left)
      invariant FreeFrom(stem, 1, all, all) == FreeFrom(stem, n - 1, all, left)
      decreases |left|
    {
      assert Fold(Candidate(stem, n - 1)) in left;
      UntriedNext(stem, n - 1, all, left);
      left := left - {Fold(name)};
      name := stem + "-" + Print(n);
      n := n + 1;
    }
    taken' := all + {Fold(name)};
  }

  /** A name is free, whatever the case, is never that of the manifest, and is the first such candidate;
      the number behind it is within 32 bits when fewer than 2^32 - 2 names are taken. */
  lemma NameIsFree(target: Target, taken: set<string>)
    ensures
      var name := NameFor(target, taken);
      && Fold(name) !in taken && Fold(name) != "index"
      && exists k :: 1 <= k <= |taken| + 2 && name == Candidate(StemFor(target), k)
                     && forall m :: 1 <= m < k ==> Fold(Candidate(StemFor(target), m)) in taken + {"index"}
  {
    var all := taken + {"index"};
    assert |all| <= |taken| + 1;
    var k := FreeFrom(StemFor(target), 1, all, all);
    assert NameFor(target, taken) == Candidate(StemFor(target), k);
  }

  lemma SlugStays(s: string, fallback: string)
    requires IsSlug(s) && 0 < |s| <= SLUG_MAX && !IsReservedDevice(s)
    ensures Slugify(s, fallback) == s
  {
    var slug := seq(|s|, i requires 0 <= i < |s| => if IsSlugChar(s[i]) then s[i] else '_');
    assert slug == s by {
      assert forall i :: 0 <= i < |s| ==> s[i] in s;
    }
  }

  /** A plain display name that is free is the file name as it stands. */
  lemma PlainNameIsKept(target: Target, taken: set<string>)
    requires IsSlug(target.displayName) && |target.displayName| <= STEM_MAX && !IsReservedDevice(target.displayName)
    requires exists c :: c in target.displayName && IsAlphanumeric(c)
    requires Fold(target.displayName) !in taken && Fold(target.displayName) != "index"
    ensures NameFor(target, taken) == target.displayName
  {
    hide IsReservedDevice, Slugify, Fold;
    SlugStays(target.displayName, "");
  }

  /** A display name without a letter or digit of ASCII makes way for the session id. */
  lemma UnreadableNameFallsBack(target: Target)
    requires forall c :: c in target.displayName ==> !IsAlphanumeric(c)
    requires IsSlug(target.talker) && 0 < |target.talker| <= STEM_MAX && !IsReservedDevice(target.talker)
    ensures StemFor(target) == target.talker
  {
    var display := Slugify(target.displayName, "");
    forall c | c in display ensures !IsAlphanumeric(c) {
      var i :| 0 <= i < |display| && display[i] == c;
      NoLetterComesIn(target.displayName, i);
    }
    hide IsReservedDevice, Slugify;
    SlugStays(target.talker, "session");
  }

  lemma NoLetterComesIn(s: string, i: nat)
    requires forall c :: c in s ==> !IsAlphanumeric(c)
    requires i < |Slugify(s, "")|
    ensures !IsAlphanumeric(Slugify(s, "")[i])
  {
    var chars := Take(s, SLUG_MAX);
    assert forall k :: 0 <= k < |chars| ==> chars[k] == s[k] && s[k] in s;
  }

  lemma StemIsSlug(target: Target)
    ensures
      var stem := StemFor(target);
      IsSlug(stem) && stem != [] && |stem| <= STEM_MAX && !IsReservedDevice(stem)
  {
    SessionIsPlain();
    SlugIsSafe(target.displayName, "");
    SlugIsSafe(target.talker, "session");
    var display := Slugify(target.displayName, "");
    var base := if exists c :: c in display && IsAlphanumeric(c) then display else Slugify(target.talker, "session");
    var stem := Take(base, STEM_MAX);
    assert IsSlug(stem) by {
      assert forall c :: c in stem ==> c in base;
    }
    if |base| > STEM_MAX && IsReservedDevice(stem) {
      SlugIsDeviceOnlyIf(stem);
    }
  }

  lemma SessionIsPlain()
    ensures IsSlug("session") && !IsReservedDevice("session") && IsSlug("") && !IsReservedDevice("")
  {
    if IsReservedDevice("session") {
      SlugIsDeviceOnlyIf("session");
    }
    if IsReservedDevice("") {
      SlugIsDeviceOnlyIf("");
    }
  }

  predicate IsAscii(c: char) {
    c as int < 0x80
  }

  lemma {:induction false} AsciiLength(s: string)
    requires forall c :: c in s ==> IsAscii(c)
    ensures ByteLength(s) == |s|
  {
    if s != [] {
      assert IsAscii(s[|s| - 1]);
      AsciiLength(s[..|s| - 1]);
    }
  }

  lemma {:induction false} NameBeforeDot(name: string, ext: string)
    requires '.' !in name
    ensures BeforeDot(name + "." + ext) == name
  {
    var path := name + "." + ext;
    if name != [] {
      NameBeforeDot(name[1..], ext);
      assert path[1..] == name[1..] + "." + ext;
    }
  }

  /** With its extension, every name is a safe path component, device names included. */
  lemma NameIsSafeSegment(target: Target, taken: set<string>, ext: string)
    requires |taken| < U32_MAX - 2 && ext in {"json", "jsonl"}
    ensures SafeSegment(NameFor(target, taken) + "." + ext)
  {
    var stem, name := StemFor(target), NameFor(target, taken);
    NameIsFree(target, taken);
    StemIsSlug(target);
    var k :| 1 <= k <= |taken| + 2 && name == Candidate(stem, k);
    CandidateIsSlug(stem, k);
    SlugWithExtension(name, ext);
  }

  lemma CandidateIsSlug(stem: string, k: nat)
    requires IsSlug(stem) && stem != [] && |stem| <= STEM_MAX && !IsReservedDevice(stem) && k <= U32_MAX
    ensures
      var name := Candidate(stem, k);
      IsSlug(name) && name != [] && |name| <= STEM_MAX + 11 && !IsReservedDevice(name)
  {
    var name := Candidate(stem, k);
    if k > 1 {
      PrintLength(k, 10);
      assert Pow10(3) == 1000;
      assert Pow10(6) == 1_000_000;
      assert Pow10(9) == 1_000_000_000;
      assert name[|stem|] == '-';
      if IsReservedDevice(name) {
        SlugIsDeviceOnlyIf(name);
      }
    }
  }

  lemma SlugWithExtension(name: string, ext: string)
    requires IsSlug(name) && name != [] && |name| <= STEM_MAX + 11 && !IsReservedDevice(name)
    requires ext in {"json", "jsonl"}
    ensures SafeSegment(name + "." + ext)
  {
    var path := name + "." + ext;
    NameBeforeDot(name, ext);
    SlugHasNoTail(name);
    assert path[0] == name[0] && name[0] in name;
    forall c | c in path ensures IsAscii(c) && c != '/' && c != '\\' && c != ':' && !IsControl(c) {
      assert c in name || c == '.' || c in "json" || c in "jsonl";
    }
    AsciiLength(path);
  }
}
