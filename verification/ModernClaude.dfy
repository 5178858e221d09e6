/** Spelling out Claude names of the fourth generation and later. */
module ModernClaude {
  import opened Options
  import opened ModelAliases

  function TrimSlashes(m: string): (r: string)
    ensures |r| <= |m| && r == m[..|r|]
    ensures |r| > 0 ==> r[|r| - 1] != '/'
  {
    if |m| > 0 && m[|m| - 1] == '/' then TrimSlashes(m[..|m| - 1]) else m
  }

  function AfterLastSlash(m: string): (r: string)
    ensures '/' !in r && |r| <= |m| && m[|m| - |r|..] == r
    ensures r == m || m[|m| - |r| - 1] == '/'
    ensures '/' !in m ==> r == m
  {
    if |m| == 0 then m
    else if m[|m| - 1] == '/' then ""
    else AfterLastSlash(m[..|m| - 1]) + [m[|m| - 1]]
  }

  /** The last non-empty part between slashes; a name of slashes only stays as it is. */
  function LastSegment(m: string): (r: string)
    ensures '/' !in m ==> r == m
  {
    if TrimSlashes(m) == "" then m else AfterLastSlash(TrimSlashes(m))
  }

  function WithoutSuffix(m: string, suffix: string): string {
    if HasSuffix(m, suffix) then DropLast(m, |suffix|) else m
  }

  function Parts(m: string): seq<string> {
    Words(WithoutSuffix(LastSegment(m), "-thinking"))
  }

  predicate IsMajor(w: string) {
    |w| == 1 && '4' <= w[0] <= '9'
  }

  predicate IsMinor(w: string) {
    |w| == 1 && '1' <= w[0] <= '9'
  }

  function Versioned(family: string, major: string, minor: string): string {
    "claude" + ['-'] + (family + ['-'] + (major + ['.'] + minor))
  }

  function Unversioned(family: string, major: string): string {
    "claude" + ['-'] + (family + ['-'] + major)
  }

  // ----- What the scans find at one place

  /** Family and two digits in a row, or two digits and the family. */
  function AtWindow(parts: seq<string>, i: nat): Option<string>
    requires i + 2 < |parts|
  {
    if parts[i] in FAMILIES && IsMajor(parts[i + 1]) && IsMinor(parts[i + 2]) then
      Some(Versioned(parts[i], parts[i + 1], parts[i + 2]))
    else if IsMajor(parts[i]) && IsMinor(parts[i + 1]) && parts[i + 2] in FAMILIES then
      Some(Versioned(parts[i + 2], parts[i], parts[i + 1]))
    else
      None
  }

  /** The digit after the family counts at the end, before a date or before a tier. */
  predicate MajorFollows(parts: seq<string>, i: nat)
    requires i < |parts|
  {
    && i + 1 < |parts| && IsMajor(parts[i + 1])
    && (i + 2 < |parts| ==> IsCompactDate(parts[i + 2]) || parts[i + 2] == "max")
  }

  /** The digit before the family counts unless it ends a longer version number. */
  predicate MajorPrecedes(parts: seq<string>, i: nat)
    requires i < |parts|
  {
    && i >= 1 && IsMajor(parts[i - 1])
    && (i >= 2 ==> !AllDigits(parts[i - 2]))
  }

  function AtFamily(parts: seq<string>, i: nat): Option<string>
    requires i < |parts|
  {
    if parts[i] !in FAMILIES then None
    else if MajorFollows(parts, i) then Some(Unversioned(parts[i], parts[i + 1]))
    else if MajorPrecedes(parts, i) then Some(Unversioned(parts[i], parts[i - 1]))
    else None
  }

  // ----- The two scans

  /** `r` is the find at the first window with one, or else at the first family with one, or else nothing. */
  ghost predicate IsFirstFind(parts: seq<string>, r: Option<string>) {
    || InWindow(parts, r)
    || (NoWindowBefore(parts, |parts|) && InFamily(parts, r))
    || (NoWindowBefore(parts, |parts|) && NoFamilyBefore(parts, |parts|) && r.None?)
  }

  ghost predicate InWindow(parts: seq<string>, r: Option<string>) {
    r.Some? && exists i: nat :: i + 2 < |parts| && r == AtWindow(parts, i) && NoWindowBefore(parts, i)
  }

  ghost predicate InFamily(parts: seq<string>, r: Option<string>) {
    r.Some? && exists i: nat :: i < |parts| && r == AtFamily(parts, i) && NoFamilyBefore(parts, i)
  }

  ghost predicate NoWindowBefore(parts: seq<string>, n: nat) {
    forall i: nat :: i < n && i + 2 < |parts| ==> AtWindow(parts, i).None?
  }

  ghost predicate NoFamilyBefore(parts: seq<string>, n: nat) {
    forall i: nat :: i < n && i < |parts| ==> AtFamily(parts, i).None?
  }

  lemma ScanGoesOn(parts: seq<string>, i: nat)
    requires i < |parts|
    ensures NoWindowBefore(parts, i) && (i + 2 < |parts| ==> AtWindow(parts, i).None?) ==> NoWindowBefore(parts, i + 1)
    ensures NoFamilyBefore(parts, i) && AtFamily(parts, i).None? ==> NoFamilyBefore(parts, i + 1)
  {
  }

  lemma {:induction false} FirstFindIsUnique(parts: seq<string>, r: Option<string>, s: Option<string>)
    requires IsFirstFind(parts, r) && IsFirstFind(parts, s)
    ensures r == s
  {
    if !NoWindowBefore(parts, |parts|) {
      var i: nat :| i + 2 < |parts| && r == AtWindow(parts, i) && NoWindowBefore(parts, i);
      var j: nat :| j + 2 < |parts| && s == AtWindow(parts, j) && NoWindowBefore(parts, j);
      assert i == j;
    } else if !NoFamilyBefore(parts, |parts|) {
      var i: nat :| i < |parts| && r == AtFamily(parts, i) && NoFamilyBefore(parts, i);
      var j: nat :| j < |parts| && s == AtFamily(parts, j) && NoFamilyBefore(parts, j);
      assert i == j;
    }
  }

  /** The canonical spelling of a modern Claude name, or nothing for any other name. */
  method CanonicalizeModernClaude(m: string) returns (r: Option<string>)
    ensures IsFirstFind(Parts(m), r)
  {
    var parts := Parts(m);
    var i := 0;
    while i + 2 < |parts|
      invariant 0 <= i && NoWindowBefore(parts, i)
    {
      r := AtWindow(parts, i);
      if r.Some? {
        assert InWindow(parts, r);
        return;
      }
      ScanGoesOn(parts, i);
      i := i + 1;
    }
    r := ScanFamilies(parts);
  }

  method ScanFamilies(parts: seq<string>) returns (r: Option<string>)
    ensures InFamily(parts, r) || (NoFamilyBefore(parts, |parts|) && r.None?)
  {
    var i := 0;
    while i < |parts|
      invariant 0 <= i && NoFamilyBefore(parts, i)
    {
      r := AtFamily(parts, i);
      if r.Some? {
        assert InFamily(parts, r);
        return;
      }
      ScanGoesOn(parts, i);
      i := i + 1;
    }
    r := None;
  }

  // ----- Emitted names

  /** Everything the scans can emit. */
  ghost predicate IsEmitted(out: string) {
    exists family, major :: family in FAMILIES && IsMajor(major) && Spells(out, family, major)
  }

  ghost predicate Spells(out: string, family: string, major: string) {
    || out == Unversioned(family, major)
    || exists minor :: IsMinor(minor) && out == Versioned(family, major, minor)
  }

  lemma FirstFindIsEmitted(parts: seq<string>, r: Option<string>)
    requires IsFirstFind(parts, r) && r.Some?
    ensures IsEmitted(r.value)
  {
  }

  predicate IsWord(w: string) {
    |w| > 0 && forall i :: 0 <= i < |w| ==> IsAlphanumeric(w[i])
  }

  lemma WordLengthIs(s: string, n: nat)
    requires n <= |s| && (forall i :: 0 <= i < n ==> IsAlphanumeric(s[i]))
    requires n == |s| || !IsAlphanumeric(s[n])
    ensures WordLength(s) == n
  {
  }

  lemma {:induction false} WordThenBreak(w: string, gap: char, rest: string)
    requires IsWord(w) && !IsAlphanumeric(gap)
    ensures Words(w + [gap] + rest) == [w] + Words(rest)
  {
    var s := w + [gap] + rest;
    WordLengthIs(s, |w|);
    assert s[..|w|] == w && s[|w|..] == [gap] + rest;
    WordLengthIs([gap] + rest, 0);
    assert ([gap] + rest)[1..] == rest;
  }

  lemma OneWord(w: string)
    requires IsWord(w)
    ensures Words(w) == [w]
  {
    WordLengthIs(w, |w|);
    assert w[..|w|] == w && w[|w|..] == "";
  }

  /** All the families are words in lower case, and none has an `r`. */
  predicate IsName(family: string) {
    |family| > 0 && forall i :: 0 <= i < |family| ==> 'a' <= family[i] <= 'z' && family[i] != 'r'
  }

  lemma FamilyIsName(family: string)
    requires family in FAMILIES
    ensures IsName(family)
  {
  }

  lemma UnversionedWords(family: string, major: string)
    requires IsName(family) && IsMajor(major)
    ensures Words(Unversioned(family, major)) == ["claude"] + ([family] + [major])
  {
    var tail := family + ['-'] + major;
    WordThenBreak("claude", '-', tail);
    WordThenBreak(family, '-', major);
    OneWord(major);
  }

  lemma VersionWords(major: string, minor: string)
    requires IsMajor(major) && IsMinor(minor)
    ensures Words(major + ['.'] + minor) == [major] + [minor]
  {
    WordThenBreak(major, '.', minor);
    OneWord(minor);
  }

  lemma VersionedWords(family: string, major: string, minor: string)
    requires IsName(family) && IsMajor(major) && IsMinor(minor)
    ensures Words(Versioned(family, major, minor)) == ["claude"] + ([family] + ([major] + [minor]))
  {
    var version := major + ['.'] + minor;
    var tail := family + ['-'] + version;
    VersionWords(major, minor);
    WordThenBreak(family, '-', version);
    WordThenBreak("claude", '-', tail);
  }

  /** How every emitted name looks from outside. */
  ghost predicate Plain(out: string) {
    && |out| > 2 && IsDigit(out[|out| - 1]) && !IsDigit(out[|out| - 2])
    && '/' !in out && 'r' !in out
  }

  lemma UnversionedIsPlain(family: string, major: string)
    requires IsName(family) && IsMajor(major)
    ensures Plain(Unversioned(family, major))
  {
    var out := Unversioned(family, major);
    assert out[|out| - 1] == major[0] && out[|out| - 2] == '-';
  }

  lemma VersionedIsPlain(family: string, major: string, minor: string)
    requires IsName(family) && IsMajor(major) && IsMinor(minor)
    ensures Plain(Versioned(family, major, minor))
  {
    var out := Versioned(family, major, minor);
    assert out[|out| - 1] == minor[0] && out[|out| - 2] == '.';
  }

  lemma EmittedIsPlain(out: string)
    requires IsEmitted(out)
    ensures Plain(out)
  {
    var family, major :| family in FAMILIES && IsMajor(major) && Spells(out, family, major);
    FamilyIsName(family);
    if out == Unversioned(family, major) {
      UnversionedIsPlain(family, major);
    } else {
      var minor :| IsMinor(minor) && out == Versioned(family, major, minor);
      VersionedIsPlain(family, major, minor);
    }
  }

  lemma PlainHasOwnParts(out: string)
    requires Plain(out)
    ensures Parts(out) == Words(out)
  {
    assert "-thinking"[|"-thinking"| - 1] == 'g';
    LastOfSuffix(out, "-thinking");
  }

  lemma LastOfSuffix(s: string, suffix: string)
    requires |suffix| > 0
    ensures HasSuffix(s, suffix) ==> s[|s| - 1] == suffix[|suffix| - 1]
  {
  }

  /** No erasable piece without an `r`, two digits at the end or a bracket there. */
  lemma ErasableShape(m: string, i: nat, j: nat)
    requires Erasable(m, i, j)
    ensures 'r' in m || (|m| > 1 && m[|m| - 1] == ']') || (|m| > 1 && IsDigit(m[|m| - 1]) && IsDigit(m[|m| - 2]))
  {
    var piece := m[i..j];
    if IsFreeTag(piece) {
      var k := if piece == " (free)" then 3 else 2;
      assert piece[k] == 'r' && m[i + k] == 'r';
    } else {
      assert m[|m| - 1] == piece[|piece| - 1] && m[|m| - 2] == piece[|piece| - 2];
    }
  }

  lemma PlainIsStable(out: string)
    requires Plain(out)
    ensures IsStable(out)
  {
    forall i: nat, j: nat ensures !Erasable(out, i, j) {
      if Erasable(out, i, j) {
        ErasableShape(out, i, j);
        assert false;
      }
    }
  }

  /** An emitted name is spelled as the canonicalizer spells it, and has nothing to strip. */
  lemma {:induction false} EmittedIsFixed(m: string, out: string)
    requires IsFirstFind(Parts(m), Some(out))
    ensures IsFirstFind(Parts(out), Some(out))
    ensures forall r :: IsFirstFind(Parts(out), r) ==> r == Some(out)
    ensures Stripped(out) == out
  {
    FirstFindIsEmitted(Parts(m), Some(out));
    EmittedIsPlain(out);
    PlainHasOwnParts(out);
    PlainIsStable(out);
    StrippedIsStable(out);
    EmittedIsFound(out);
    forall r | IsFirstFind(Parts(out), r) ensures r == Some(out) {
      FirstFindIsUnique(Parts(out), r, Some(out));
    }
  }

  lemma EmittedIsFound(out: string)
    requires IsEmitted(out)
    ensures IsFirstFind(Words(out), Some(out))
  {
    var family, major :| family in FAMILIES && IsMajor(major) && Spells(out, family, major);
    FamilyIsName(family);
    if out == Unversioned(family, major) {
      UnversionedIsFound(family, major);
    } else {
      var minor :| IsMinor(minor) && out == Versioned(family, major, minor);
      VersionedIsFound(family, major, minor);
    }
  }

  lemma UnversionedIsFound(family: string, major: string)
    requires family in FAMILIES && IsName(family) && IsMajor(major)
    ensures IsFirstFind(Words(Unversioned(family, major)), Some(Unversioned(family, major)))
  {
    UnversionedWords(family, major);
    var parts := Words(Unversioned(family, major));
    assert |parts| == 3 && parts[0] == "claude" && parts[1] == family && parts[2] == major;
    assert AtWindow(parts, 0).None?;
    assert NoFamilyBefore(parts, 1);
    assert AtFamily(parts, 1) == Some(Unversioned(family, major));
  }

  lemma VersionedIsFound(family: string, major: string, minor: string)
    requires family in FAMILIES && IsName(family) && IsMajor(major) && IsMinor(minor)
    ensures IsFirstFind(Words(Versioned(family, major, minor)), Some(Versioned(family, major, minor)))
  {
    VersionedWords(family, major, minor);
    var parts := Words(Versioned(family, major, minor));
    assert |parts| == 4 && parts[0] == "claude" && parts[1] == family && parts[2] == major && parts[3] == minor;
    assert NoWindowBefore(parts, 1);
    assert AtWindow(parts, 1) == Some(Versioned(family, major, minor));
  }
}
