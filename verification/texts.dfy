/** Strings as the export compares them: byte order, ASCII case folding, the part before the last dot. */
module Texts {
  // ---- order -------------------------------------------------------------------------------

  predicate Less(a: string, b: string) {
    b != [] && (a == [] || a[0] < b[0] || (a[0] == b[0] && Less(a[1..], b[1..])))
  }

  lemma {:induction false} LessIsTotal(a: string, b: string)
    ensures Less(a, b) || a == b || Less(b, a)
    ensures !(Less(a, b) && Less(b, a)) && !Less(a, a)
    decreases |a|
  {
    if a != [] {
      LessIsTotal(a[1..], if b != [] then b[1..] else b);
      LessIsTotal(a[1..], a[1..]);
      if b != [] && a[0] == b[0] {
        assert a == [a[0]] + a[1..] && b == [b[0]] + b[1..];
      }
    }
  }

  lemma {:induction false} LessIsTransitive(a: string, b: string, c: string)
    requires Less(a, b) && Less(b, c)
    ensures Less(a, c)
    decreases |a|
  {
    if a != [] && a[0] == b[0] && b[0] == c[0] {
      LessIsTransitive(a[1..], b[1..], c[1..]);
    }
  }

  /** The strings agree on the first `k` characters, and there one ends or has the smaller character. */
  predicate DiffersAt(a: string, b: string, k: nat) {
    k <= |a| && k < |b| && a[..k] == b[..k] && (k == |a| || a[k] < b[k])
  }

  lemma SameBefore(a: string, b: string, k: nat)
    ensures DiffersAt(a, b, k) && k > 0 ==> a != [] && b != [] && a[0] == b[0]
  {
    if DiffersAt(a, b, k) && k > 0 {
      assert a[..k][0] == b[..k][0];
    }
  }

  /** The order is that of the first difference. */
  lemma {:induction false} LessIff(a: string, b: string)
    ensures Less(a, b) <==> exists k: nat :: DiffersAt(a, b, k)
    decreases |a|
  {
    if a == [] || b == [] || a[0] != b[0] {
      if Less(a, b) {
        assert DiffersAt(a, b, 0);
      }
      forall k: nat ensures DiffersAt(a, b, k) && k > 0 ==> a != [] && b != [] && a[0] == b[0] {
        SameBefore(a, b, k);
      }
    } else {
      LessIff(a[1..], b[1..]);
      if Less(a, b) {
        var k: nat :| DiffersAt(a[1..], b[1..], k);
        assert a[..k + 1] == [a[0]] + a[1..][..k] && b[..k + 1] == [b[0]] + b[1..][..k];
        assert DiffersAt(a, b, k + 1);
      }
      if k: nat :| DiffersAt(a, b, k) {
        assert k > 0;
        assert a[..k][1..] == a[1..][..k - 1] && b[..k][1..] == b[1..][..k - 1];
        assert DiffersAt(a[1..], b[1..], k - 1);
      }
    }
  }

  // ---- case folding ---------------------------------------------------------------------------

  function Lower(c: char): char {
    if 'A' <= c <= 'Z' then (c as int + 32) as char else c
  }

  function Fold(s: string): (f: string)
    ensures |f| == |s|
  {
    seq(|s|, i requires 0 <= i < |s| => Lower(s[i]))
  }

  /** The same letter, or its upper and its lower case. */
  predicate SameLetter(a: char, b: char) {
    a == b || ('A' <= a <= 'Z' && b as int - a as int == 32) || ('A' <= b <= 'Z' && a as int - b as int == 32)
  }

  /** Two names fold to the same exactly if they differ in case alone. */
  lemma FoldIff(a: string, b: string)
    ensures Fold(a) == Fold(b) <==> |a| == |b| && forall i :: 0 <= i < |a| ==> SameLetter(a[i], b[i])
  {
    if |a| == |b| {
      assert forall i :: 0 <= i < |a| ==> Fold(a)[i] == Lower(a[i]) && Fold(b)[i] == Lower(b[i]);
      if i :| 0 <= i < |a| && !SameLetter(a[i], b[i]) {
        LettersFold(a[i], b[i]);
        assert Fold(a)[i] != Fold(b)[i];
      } else {
        forall i | 0 <= i < |a| ensures Fold(a)[i] == Fold(b)[i] {
          LettersFold(a[i], b[i]);
        }
      }
    }
  }

  lemma LettersFold(a: char, b: char)
    ensures SameLetter(a, b) <==> Lower(a) == Lower(b)
  {
  }

  lemma FoldConcat(a: string, b: string)
    ensures Fold(a + b) == Fold(a) + Fold(b)
  {
  }

  lemma FoldFixes(s: string)
    requires forall c :: c in s ==> !('A' <= c <= 'Z')
    ensures Fold(s) == s
  {
    assert forall i :: 0 <= i < |s| ==> s[i] in s;
  }

  // ---- the last dot -----------------------------------------------------------------------------

  /** `rsplit_once('.')`: what stands before the last dot, or all of it. */
  function StemOf(file: string): string {
    var dot := LastDot(file);
    if dot < |file| then file[..dot] else file
  }

  function LastDot(file: string): (dot: nat)
    ensures dot <= |file|
    ensures dot < |file| ==> file[dot] == '.' && '.' !in file[dot + 1..]
    ensures dot == |file| ==> '.' !in file
  {
    if file == [] then 0
    else if file[|file| - 1] == '.' then |file| - 1
    else
      var before := LastDot(file[..|file| - 1]);
      if before < |file| - 1 then
        assert file[before + 1..] == file[..|file| - 1][before + 1..] + [file[|file| - 1]];
        before
      else
        assert file == file[..|file| - 1] + [file[|file| - 1]];
        |file|
  }

  lemma LastDotIs(file: string, dot: nat)
    requires dot < |file| && file[dot] == '.' && '.' !in file[dot + 1..]
    ensures LastDot(file) == dot
  {
    NoDotAfter(file, dot);
    NoDotAfter(file, LastDot(file));
  }

  lemma NoDotAfter(file: string, dot: nat)
    requires dot < |file| && '.' !in file[dot + 1..]
    ensures forall i :: dot < i < |file| ==> file[i] != '.'
  {
    assert forall i :: dot < i < |file| ==> file[dot + 1..][i - dot - 1] == file[i];
  }

  /** A file name that folds to `stem.ext` has a stem that folds to `stem`. */
  lemma StemOfFolded(file: string, stem: string, ext: string)
    requires Fold(file) == Fold(stem + "." + ext) && '.' !in ext
    ensures Fold(StemOf(file)) == Fold(stem)
  {
    var path, dot := stem + "." + ext, |stem|;
    FoldedAlike(file, path);
    hide Fold, Lower;
    forall i | dot < i < |file| ensures file[i] != '.' {
      assert path[i] == ext[i - dot - 1] && ext[i - dot - 1] in ext;
    }
    assert path[dot] == '.' && path[..dot] == stem;
    LastDotIs(file, dot);
    FoldedPrefix(file, path, dot);
  }

  /** Folding keeps lengths and dots. */
  lemma FoldedAlike(a: string, b: string)
    requires Fold(a) == Fold(b)
    ensures |a| == |b| && forall i :: 0 <= i < |a| ==> (a[i] == '.' <==> b[i] == '.')
  {
    assert forall i :: 0 <= i < |a| ==> Lower(a[i]) == Fold(a)[i] == Fold(b)[i] == Lower(b[i]);
  }

  lemma FoldedPrefix(a: string, b: string, n: nat)
    requires Fold(a) == Fold(b) && n <= |a| == |b|
    ensures Fold(a[..n]) == Fold(b[..n])
  {
    assert Fold(a[..n]) == Fold(a)[..n] && Fold(b[..n]) == Fold(b)[..n];
  }

  lemma StemOfPath(stem: string, ext: string)
    requires '.' !in ext
    ensures StemOf(stem + "." + ext) == stem
  {
    var path := stem + "." + ext;
    assert path[|stem|] == '.' && path[|stem| + 1..] == ext;
    LastDotIs(path, |stem|);
  }
}
