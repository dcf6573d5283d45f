/** Containment rules for one path component (`src/pathsafe.rs`). */
module PathSafe {
  const MAX_SEGMENT: nat := 128
  const SLUG_MAX: nat := 64

  function Utf8Size(c: char): nat {
    var u := c as int;
    if u < 0x80 then 1 else if u < 0x800 then 2 else if u < 0x10000 then 3 else 4
  }

  function ByteLength(s: string): nat {
    if s == [] then 0 else ByteLength(s[..|s| - 1]) + Utf8Size(s[|s| - 1])
  }

  predicate IsControl(c: char) {
    c as int < 0x20 || 0x7F <= c as int < 0xA0
  }

  function Upper(c: char): char {
    if 'a' <= c <= 'z' then (c as int - 32) as char else c
  }

  function UpperCase(s: string): (u: string)
    ensures |u| == |s|
  {
    seq(|s|, i requires 0 <= i < |s| => Upper(s[i]))
  }

  function BeforeDot(s: string): string {
    if s == [] || s[0] == '.' then "" else [s[0]] + BeforeDot(s[1..])
  }

  function TrimTail(s: string): string {
    if s != [] && (s[|s| - 1] == ' ' || s[|s| - 1] == '.') then TrimTail(s[..|s| - 1]) else s
  }

  /** Names Win32 takes for a device, in any case and with any extension. */
  predicate IsReservedDevice(s: string) {
    var name := UpperCase(TrimTail(BeforeDot(s)));
    || name in {"CON", "PRN", "AUX", "NUL", "CONIN$", "CONOUT$"}
    || (|name| == 4 && name[..3] in {"COM", "LPT"} && '1' <= name[3] <= '9')
  }

  predicate SafeSegment(s: string) {
    && s != [] && ByteLength(s) <= MAX_SEGMENT && s != "." && s != ".."
    && (forall c :: c in s ==> c != '/' && c != '\\' && c != ':' && !IsControl(c))
    && s[|s| - 1] != '.' && s[|s| - 1] != ' '
    && !IsReservedDevice(s)
  }

  predicate IsAlphanumeric(c: char) {
    'A' <= c <= 'Z' || 'a' <= c <= 'z' || '0' <= c <= '9'
  }

  predicate IsSlugChar(c: char) {
    IsAlphanumeric(c) || c == '-' || c == '_'
  }

  predicate IsSlug(s: string) {
    forall c :: c in s ==> IsSlugChar(c)
  }

  function Take(s: string, n: nat): string {
    if |s| <= n then s else s[..n]
  }

  function Slugify(s: string, fallback: string): string {
    var chars := Take(s, SLUG_MAX);
    var slug := seq(|chars|, i requires 0 <= i < |chars| => if IsSlugChar(chars[i]) then chars[i] else '_');
    if slug == [] then fallback
    else if IsReservedDevice(slug) then "_" + Take(slug, SLUG_MAX - 1)
    else slug
  }

  lemma {:induction false} SlugHasNoTail(s: string)
    requires IsSlug(s)
    ensures BeforeDot(s) == s && TrimTail(s) == s
  {
    if s != [] {
      assert s[0] in s && s[|s| - 1] in s;
      SlugHasNoTail(s[1..]);
    }
  }

  lemma UpperOfSlug(s: string)
    requires IsSlug(s)
    ensures
      var name := UpperCase(s);
      && '$' !in name
      && ('-' in s ==> '-' in name)
      && (s != [] && s[0] == '_' ==> name[0] == '_')
  {
    var name := UpperCase(s);
    forall i | 0 <= i < |s| ensures name[i] != '$' && (s[i] == '-' ==> name[i] == '-') {
      assert s[i] in s;
    }
    if '-' in s {
      var i :| 0 <= i < |s| && s[i] == '-';
      assert name[i] in name;
    }
  }

  /** A slug of any other length than three or four is not a device; nor is one that begins with an
      underscore or holds a hyphen. */
  lemma SlugIsDeviceOnlyIf(s: string)
    requires IsSlug(s) && IsReservedDevice(s)
    ensures (|s| == 3 || |s| == 4) && s[0] != '_' && '-' !in s
  {
    SlugHasNoTail(s);
    UpperOfSlug(s);
    DeviceShape(UpperCase(s));
  }

  lemma DeviceShape(name: string)
    requires || name in {"CON", "PRN", "AUX", "NUL", "CONIN$", "CONOUT$"}
             || (|name| == 4 && name[..3] in {"COM", "LPT"} && '1' <= name[3] <= '9')
    requires '$' !in name
    ensures (|name| == 3 || |name| == 4) && name[0] != '_' && '-' !in name
  {
    assert "CONIN$"[5] == '$' && "CONOUT$"[6] == '$';
    if |name| == 4 {
      assert name == name[..3] + [name[3]];
    }
  }

  /** A slug is never a device, whatever it was made from. */
  lemma SlugIsSafe(s: string, fallback: string)
    requires IsSlug(fallback) && !IsReservedDevice(fallback) && |fallback| <= SLUG_MAX
    ensures IsSlug(Slugify(s, fallback)) && !IsReservedDevice(Slugify(s, fallback))
    ensures |Slugify(s, fallback)| <= SLUG_MAX
    ensures fallback != [] ==> Slugify(s, fallback) != []
  {
    var slug := Slugify(s, fallback);
    if slug != [] && slug[0] == '_' && IsSlug(slug) && IsReservedDevice(slug) {
      SlugIsDeviceOnlyIf(slug);
    }
  }

  /** The name in any case. */
  predicate Spells(s: string, name: string) {
    |s| == |name| && forall i :: 0 <= i < |s| ==> s[i] == name[i] || s[i] as int == name[i] as int + 32
  }

  lemma SpelledInCapitals(s: string, name: string)
    requires Spells(s, name) && forall c :: c in name ==> 'A' <= c <= 'Z'
    ensures UpperCase(s) == name && IsSlug(s)
  {
    forall i | 0 <= i < |s| ensures UpperCase(s)[i] == name[i] && IsAlphanumeric(s[i]) {
      assert name[i] in name;
    }
  }

  lemma SlugIsKept(s: string, fallback: string)
    requires IsSlug(s) && 0 < |s| <= 4 && IsReservedDevice(s)
    ensures Slugify(s, fallback) == "_" + s
  {
    var slug := seq(|s|, i requires 0 <= i < |s| => if IsSlugChar(s[i]) then s[i] else '_');
    assert slug == s by {
      assert forall i :: 0 <= i < |s| ==> s[i] in s;
    }
  }

  /** A device name, in any case, is kept apart by an underscore in front. */
  lemma DeviceNamesAreMarked(s: string, name: string, fallback: string)
    requires name in {"CON", "PRN", "AUX", "NUL"} && Spells(s, name)
    ensures IsReservedDevice(s) && Slugify(s, fallback) == "_" + s
  {
    assert forall c :: c in name ==> 'A' <= c <= 'Z';
    SpelledInCapitals(s, name);
    SlugHasNoTail(s);
    SlugIsKept(s, fallback);
  }

  /** So is a port of one to nine. */
  lemma PortNamesAreMarked(s: string, digit: char, name: string, fallback: string)
    requires name in {"COM", "LPT"} && '1' <= digit <= '9' && Spells(s, name)
    ensures IsReservedDevice(s + [digit]) && Slugify(s + [digit], fallback) == "_" + (s + [digit])
  {
    assert forall c :: c in name ==> 'A' <= c <= 'Z';
    SpelledInCapitals(s, name);
    assert UpperCase(s + [digit])[..3] == UpperCase(s) && UpperCase(s + [digit])[3] == digit;
    SlugHasNoTail(s + [digit]);
    SlugIsKept(s + [digit], fallback);
  }
}
