/** What the pieces of a model name are, told on its characters. */
module NameParts {
  import opened Options
  import opened ModelAliases
  import opened ModernClaude

  // ----- The words of a name

  /** A stretch of letters and digits that no letter or digit goes on with. */
  predicate IsStretch(m: string, i: nat, j: nat) {
    && i < j <= |m|
    && (forall k :: i <= k < j ==> IsAlphanumeric(m[k]))
    && (i > 0 ==> !IsAlphanumeric(m[i - 1]))
    && (j < |m| ==> !IsAlphanumeric(m[j]))
  }

  predicate IsWordAt(m: string, i: nat, word: string) {
    IsStretch(m, i, i + |word|) && m[i..i + |word|] == word
  }

  /** The words stand at these places, from left to right. */
  ghost predicate StandAt(words: seq<string>, m: string, starts: seq<nat>) {
    && |starts| == |words|
    && (forall k :: 0 <= k < |words| ==> IsWordAt(m, starts[k], words[k]))
    && (forall k, l :: 0 <= k < l < |words| ==> starts[k] < starts[l])
  }

  ghost predicate AreAllStretches(m: string, starts: seq<nat>) {
    forall i: nat, j: nat :: IsStretch(m, i, j) ==> i in starts
  }

  function Shifted(starts: seq<nat>, n: nat): (r: seq<nat>)
    ensures |r| == |starts| && forall k :: 0 <= k < |r| ==> r[k] == starts[k] + n
  {
    seq(|starts|, k requires 0 <= k < |starts| => starts[k] + n)
  }

  /** Where a break stands before `n`, the stretches of the rest are those of the name. */
  lemma StretchOfRest(m: string, n: nat, i: nat, j: nat)
    requires n <= |m| && (0 < n < |m| ==> !IsAlphanumeric(m[n - 1]) || !IsAlphanumeric(m[n]))
    ensures IsStretch(m[n..], i, j) <==> IsStretch(m, i + n, j + n)
    ensures IsStretch(m[n..], i, j) ==> m[n..][i..j] == m[i + n..j + n]
  {
    if IsStretch(m, i + n, j + n) {
      forall k | i <= k < j ensures m[n..][k] == m[k + n] {
      }
    }
    if IsStretch(m[n..], i, j) {
      assert m[n..][i] == m[i + n];
      forall k | i + n <= k < j + n ensures m[k] == m[n..][k - n] {
      }
    }
  }

  lemma WordOfRest(m: string, n: nat, word: string, i: nat)
    requires n <= |m| && (0 < n < |m| ==> !IsAlphanumeric(m[n - 1]) || !IsAlphanumeric(m[n]))
    requires IsWordAt(m[n..], i, word)
    ensures IsWordAt(m, i + n, word)
  {
    StretchOfRest(m, n, i, i + |word|);
  }

  lemma WordsOfRest(m: string, n: nat, words: seq<string>, starts: seq<nat>)
    requires n <= |m| && (0 < n < |m| ==> !IsAlphanumeric(m[n - 1]) || !IsAlphanumeric(m[n]))
    requires StandAt(words, m[n..], starts)
    ensures StandAt(words, m, Shifted(starts, n))
  {
    var later := Shifted(starts, n);
    forall k | 0 <= k < |words| ensures IsWordAt(m, later[k], words[k]) {
      WordOfRest(m, n, words[k], starts[k]);
    }
  }

  lemma StretchesOfRest(m: string, n: nat, starts: seq<nat>, i: nat, j: nat)
    requires n <= |m| && (0 < n < |m| ==> !IsAlphanumeric(m[n - 1]) || !IsAlphanumeric(m[n]))
    requires AreAllStretches(m[n..], starts) && n <= i && IsStretch(m, i, j)
    ensures i in Shifted(starts, n)
  {
    StretchOfRest(m, n, i - n, j - n);
    var k :| 0 <= k < |starts| && starts[k] == i - n;
    assert Shifted(starts, n)[k] == i;
  }

  lemma OneWordMore(m: string, n: nat, words: seq<string>, starts: seq<nat>)
    requires IsStretch(m, 0, n) && StandAt(words, m[n..], starts) && AreAllStretches(m[n..], starts)
    ensures StandAt([m[..n]] + words, m, [0] + Shifted(starts, n)) && AreAllStretches(m, [0] + Shifted(starts, n))
  {
    WordsOfRest(m, n, words, starts);
    var later := Shifted(starts, n);
    InFront(m, n, words, later);
    forall i: nat, j: nat | IsStretch(m, i, j) ensures i in [0] + later {
      if i > 0 {
        AfterStretch(m, n, i, j);
        StretchesOfRest(m, n, starts, i, j);
      }
    }
  }

  lemma AfterStretch(m: string, n: nat, i: nat, j: nat)
    requires IsStretch(m, 0, n) && IsStretch(m, i, j) && i > 0
    ensures n <= i
  {
  }

  lemma InFront(m: string, n: nat, words: seq<string>, later: seq<nat>)
    requires IsStretch(m, 0, n) && StandAt(words, m, later) && forall k :: 0 <= k < |later| ==> later[k] >= n
    ensures StandAt([m[..n]] + words, m, [0] + later)
  {
    var longer := [m[..n]] + words;
    var starts := [0] + later;
    forall k | 0 <= k < |longer| ensures IsWordAt(m, starts[k], longer[k]) {
      if k > 0 {
        assert longer[k] == words[k - 1] && starts[k] == later[k - 1];
      }
    }
  }

  lemma OneBreakMore(m: string, words: seq<string>, starts: seq<nat>)
    requires |m| > 0 && !IsAlphanumeric(m[0]) && StandAt(words, m[1..], starts) && AreAllStretches(m[1..], starts)
    ensures StandAt(words, m, Shifted(starts, 1)) && AreAllStretches(m, Shifted(starts, 1))
  {
    WordsOfRest(m, 1, words, starts);
    forall i: nat, j: nat | IsStretch(m, i, j) ensures i in Shifted(starts, 1) {
      StretchesOfRest(m, 1, starts, i, j);
    }
  }

  /** The words of a name are all its stretches, in the order in which they stand there. */
  lemma {:induction false} WordsAreStretches(m: string) returns (starts: seq<nat>)
    ensures StandAt(Words(m), m, starts) && AreAllStretches(m, starts)
    decreases |m|
  {
    var n := WordLength(m);
    if |m| == 0 {
      starts := [];
    } else if n == 0 {
      starts := WordsAreStretches(m[1..]);
      OneBreakMore(m, Words(m[1..]), starts);
      starts := Shifted(starts, 1);
    } else {
      starts := WordsAreStretches(m[n..]);
      OneWordMore(m, n, Words(m[n..]), starts);
      starts := [0] + Shifted(starts, n);
    }
  }

  ghost predicate HasWord(m: string, words: set<string>) {
    exists i: nat, j: nat :: IsStretch(m, i, j) && m[i..j] in words
  }

  lemma StretchEnds(m: string, i: nat, j: nat, k: nat)
    requires IsStretch(m, i, j) && IsStretch(m, i, k)
    ensures j == k
  {
  }

  lemma AmongWords(m: string, found: seq<string>, starts: seq<nat>, words: set<string>)
    requires StandAt(found, m, starts) && AreAllStretches(m, starts)
    ensures (exists k :: 0 <= k < |found| && found[k] in words) <==> HasWord(m, words)
  {
    if k :| 0 <= k < |found| && found[k] in words {
      assert IsWordAt(m, starts[k], found[k]);
    }
    if HasWord(m, words) {
      var i: nat, j: nat :| IsStretch(m, i, j) && m[i..j] in words;
      var k :| 0 <= k < |starts| && starts[k] == i;
      StretchEnds(m, i, j, i + |found[k]|);
    }
  }

  /** A name counts as Claude's exactly if one of these five words stands in it on its own. */
  lemma CandidateIsExact(m: string)
    ensures IsClaudeCandidate(m) <==> HasWord(m, {"claude", "opus", "sonnet", "haiku", "fable"})
  {
    var starts := WordsAreStretches(m);
    AmongWords(m, Words(m), starts, {"claude", "opus", "sonnet", "haiku", "fable"});
    NamedWords(Words(m));
  }

  lemma NamedWords(found: seq<string>)
    ensures (exists k :: 0 <= k < |found| && (found[k] == "claude" || found[k] in FAMILIES)) <==>
            (exists k :: 0 <= k < |found| && found[k] in {"claude", "opus", "sonnet", "haiku", "fable"})
  {
  }

  // ----- The last segment

  /** `m[i..j]` has no slash, only slashes behind it, and a slash or nothing before it. */
  predicate IsLastPart(m: string, i: nat, j: nat) {
    && i < j <= |m|
    && (forall k :: i <= k < j ==> m[k] != '/')
    && (forall k :: j <= k < |m| ==> m[k] == '/')
    && (i > 0 ==> m[i - 1] == '/')
  }

  predicate OnlySlashes(s: string) {
    forall k :: 0 <= k < |s| ==> s[k] == '/'
  }

  lemma {:induction false} TrimmedAreSlashes(m: string)
    ensures forall k :: |TrimSlashes(m)| <= k < |m| ==> m[k] == '/'
  {
    if |m| > 0 && m[|m| - 1] == '/' {
      TrimmedAreSlashes(m[..|m| - 1]);
    }
  }

  lemma LastPartIsUnique(m: string, i: nat, j: nat, k: nat, l: nat)
    requires IsLastPart(m, i, j) && IsLastPart(m, k, l)
    ensures i == k && j == l
  {
    assert m[j - 1] != '/' && m[l - 1] != '/';
  }

  lemma LastSegmentIsPart(m: string) returns (i: nat, j: nat)
    requires !OnlySlashes(m)
    ensures IsLastPart(m, i, j) && LastSegment(m) == m[i..j]
  {
    var t := TrimSlashes(m);
    TrimmedAreSlashes(m);
    var r := AfterLastSlash(t);
    i, j := |t| - |r|, |t|;
    assert m[i..j] == t[i..] == r;
    forall k | i <= k < j ensures m[k] != '/' {
      assert m[k] == r[k - i];
    }
  }

  /** Of a name of slashes only everything is left, of any other the last part between slashes. */
  lemma LastSegmentIsExact(m: string, r: string)
    ensures r == LastSegment(m) <==>
            if OnlySlashes(m) then r == m else exists i: nat, j: nat :: IsLastPart(m, i, j) && r == m[i..j]
  {
    if OnlySlashes(m) {
      assert TrimSlashes(m) == "";
    } else {
      var i, j := LastSegmentIsPart(m);
      forall k: nat, l: nat | IsLastPart(m, k, l) ensures m[k..l] == m[i..j] {
        LastPartIsUnique(m, i, j, k, l);
      }
    }
  }

  // ----- Versions in a row of words

  predicate IsFamily(w: string) {
    w == "opus" || w == "sonnet" || w == "haiku" || w == "fable"
  }

  ghost predicate ReadsAsVersion(words: seq<string>, out: string) {
    exists family, major, minor ::
      && IsFamily(family) && '4' <= major <= '9' && '1' <= minor <= '9'
      && (words == [family, [major], [minor]] || words == [[major], [minor], family])
      && out == "claude-" + family + "-" + [major] + "." + [minor]
  }

  lemma VersionedText(family: string, major: string, minor: string)
    ensures Versioned(family, major, minor) == "claude-" + family + "-" + major + "." + minor
  {
  }

  lemma UnversionedText(family: string, major: string)
    ensures Unversioned(family, major) == "claude-" + family + "-" + major
  {
  }

  lemma OneCharacter(w: string)
    requires |w| == 1
    ensures w == [w[0]]
  {
  }

  /** Three words in a row give a name exactly as a family and its two digits, in either order. */
  lemma WindowIsExact(parts: seq<string>, i: nat, out: string)
    requires i + 2 < |parts|
    ensures AtWindow(parts, i) == Some(out) <==> ReadsAsVersion(parts[i..i + 3], out)
  {
    var words := parts[i..i + 3];
    assert words == [parts[i], parts[i + 1], parts[i + 2]];
    if AtWindow(parts, i) == Some(out) {
      OneCharacter(parts[i + 1]);
      if parts[i] in FAMILIES {
        OneCharacter(parts[i + 2]);
        VersionedText(parts[i], parts[i + 1], parts[i + 2]);
        assert words == [parts[i], [parts[i + 1][0]], [parts[i + 2][0]]];
      } else {
        OneCharacter(parts[i]);
        VersionedText(parts[i + 2], parts[i], parts[i + 1]);
        assert words == [[parts[i][0]], [parts[i + 1][0]], parts[i + 2]];
      }
    }
    if ReadsAsVersion(words, out) {
      var family, major, minor :|
        && IsFamily(family) && '4' <= major <= '9' && '1' <= minor <= '9'
        && (words == [family, [major], [minor]] || words == [[major], [minor], family])
        && out == "claude-" + family + "-" + [major] + "." + [minor];
      VersionedText(family, [major], [minor]);
    }
  }

  /** The digit behind the family, at the end or before a date or the tier `max`. */
  ghost predicate DigitBehind(parts: seq<string>, i: nat, major: char) {
    && i + 1 < |parts| && parts[i + 1] == [major] && '4' <= major <= '9'
    && (i + 2 == |parts| || parts[i + 2] == "max" || Fits(parts[i + 2], "20######"))
  }

  predicate IsNumber(w: string) {
    forall k :: 0 <= k < |w| ==> '0' <= w[k] <= '9'
  }

  /** The digit before the family, at the start or behind a word that is no number. */
  ghost predicate DigitBefore(parts: seq<string>, i: nat, major: char) {
    && 0 < i < |parts| && parts[i - 1] == [major] && '4' <= major <= '9'
    && (i == 1 || !IsNumber(parts[i - 2]))
  }

  ghost predicate ReadsAsMajor(parts: seq<string>, i: nat, major: char) {
    DigitBehind(parts, i, major) || (DigitBefore(parts, i, major) && forall c :: !DigitBehind(parts, i, c))
  }

  lemma CompactDateIsShape(s: string)
    ensures IsCompactDate(s) <==> Fits(s, "20######")
  {
    if IsCompactDate(s) {
      StartsWith20(s);
    }
    if Fits(s, "20######") {
      assert s[0] == '2' && s[1] == '0';
      assert s[..2] == ['2', '0'];
    }
  }

  lemma BehindIsExact(parts: seq<string>, i: nat)
    requires i < |parts|
    ensures MajorFollows(parts, i) <==> exists c :: DigitBehind(parts, i, c)
    ensures forall c :: DigitBehind(parts, i, c) ==> parts[i + 1] == [c]
  {
    if i + 2 < |parts| {
      CompactDateIsShape(parts[i + 2]);
    }
    if MajorFollows(parts, i) {
      OneCharacter(parts[i + 1]);
      assert DigitBehind(parts, i, parts[i + 1][0]);
    }
  }

  lemma BeforeIsExact(parts: seq<string>, i: nat)
    requires i < |parts|
    ensures MajorPrecedes(parts, i) <==> exists c :: DigitBefore(parts, i, c)
    ensures forall c :: DigitBefore(parts, i, c) ==> parts[i - 1] == [c]
  {
    if MajorPrecedes(parts, i) {
      OneCharacter(parts[i - 1]);
      assert DigitBefore(parts, i, parts[i - 1][0]);
    }
  }

  /** A family word gives a name exactly by a digit behind it, or before it if there is none behind. */
  lemma FamilyIsExact(parts: seq<string>, i: nat, out: string)
    requires i < |parts|
    ensures AtFamily(parts, i) == Some(out) <==>
            IsFamily(parts[i]) && exists c :: ReadsAsMajor(parts, i, c) && out == "claude-" + parts[i] + "-" + [c]
  {
    BehindIsExact(parts, i);
    BeforeIsExact(parts, i);
    if i + 1 < |parts| {
      UnversionedText(parts[i], parts[i + 1]);
    }
    if i > 0 {
      UnversionedText(parts[i], parts[i - 1]);
    }
  }

  // ----- Which piece is erased first

  /** Dates at the end, then the window marker, then tags at the end, then tags inside, kind by kind. */
  function Turn(m: string, i: nat, j: nat): nat
    requires i < j <= |m|
  {
    if m[i..j] == "[1m]" then 1
    else if !IsFreeTag(m[i..j]) then 0
    else if j == |m| then 2
    else if m[i..j] == "-free" then 3
    else if m[i..j] == ":free" then 4
    else 5
  }

  /** No erasable piece has an earlier turn, or the same turn and an earlier start. */
  ghost predicate GoesFirst(m: string, i: nat, j: nat) {
    && Erasable(m, i, j)
    && forall k: nat, l: nat :: Erasable(m, k, l) ==>
         Turn(m, i, j) < Turn(m, k, l) || (Turn(m, i, j) == Turn(m, k, l) && i <= k)
  }

  /** Which pieces have which turn. */
  lemma TurnsAre(m: string, i: nat, j: nat)
    requires Erasable(m, i, j)
    ensures Turn(m, i, j) == 0 ==> 0 < i && j == |m| && IsReleaseDate(m[i..])
    ensures Turn(m, i, j) == 1 ==> HasWindowMarker(m) && i == |m| - 4
    ensures Turn(m, i, j) == 2 ==> j == |m| && IsFreeTag(m[i..])
    ensures Turn(m, i, j) == 3 ==> OccursAt(m, "-free-", i)
    ensures Turn(m, i, j) == 4 ==> OccursAt(m, ":free-", i)
    ensures Turn(m, i, j) == 5 ==> OccursAt(m, " (free)-", i)
  {
    if j == |m| {
      assert m[i..j] == m[i..];
      assert j >= 4 && i == |m| - 4 ==> m[..i] == DropLast(m, 4);
    } else {
      assert m[i..j + 1] == m[i..j] + [m[j]];
    }
  }

  lemma DateGoesFirst(m: string) returns (i: nat)
    requires StripRelease(m).Some?
    ensures GoesFirst(m, i, |m|) && StripRelease(m).value == m[..i]
  {
    i := |StripRelease(m).value|;
    ReleaseIsErasable(m);
    var piece := m[i..|m|];
    assert piece == m[i..];
    DateIsNoTag(m, i);
    forall k: nat, l: nat | Erasable(m, k, l) ensures Turn(m, k, l) == 0 ==> i <= k {
      TurnsAre(m, k, l);
      if Turn(m, k, l) == 0 {
        DateIsStripped(m, k);
      }
    }
  }

  lemma DateIsNoTag(m: string, i: nat)
    requires StripRelease(m).Some? && i == |StripRelease(m).value|
    ensures Turn(m, i, |m|) == 0
  {
    var piece := m[i..|m|];
    assert piece[0] == m[i] && piece[1] == m[i + 1];
    if HasDashedDate(m) {
      assert m[|m| - 10..][0] == m[i + 1];
    }
  }

  /** Without a date or a marker only tags are erased. */
  lemma TagsAreLeft(m: string, i: nat, j: nat)
    requires StripRelease(m).None? && !HasWindowMarker(m) && Erasable(m, i, j)
    ensures Turn(m, i, j) >= 2
  {
    TurnsAre(m, i, j);
    if Turn(m, i, j) == 0 {
      DateIsStripped(m, i);
    }
  }

  lemma MarkerGoesFirst(m: string)
    requires StripRelease(m).None? && HasWindowMarker(m)
    ensures GoesFirst(m, |m| - 4, |m|)
  {
    var i := |m| - 4;
    assert m[i..|m|] == m[i..] && m[..i] == DropLast(m, 4);
    forall k: nat, l: nat | Erasable(m, k, l) ensures Turn(m, k, l) > 1 || (Turn(m, k, l) == 1 && i <= k) {
      TurnsAre(m, k, l);
      if Turn(m, k, l) == 0 {
        DateIsStripped(m, k);
      }
    }
  }

  lemma EndTagsAre(m: string, i: nat)
    requires i <= |m| && IsFreeTag(m[i..])
    ensures if i == |m| - 7 then HasSuffix(m, " (free)")
            else i == |m| - 5 && (HasSuffix(m, "-free") || HasSuffix(m, ":free"))
    ensures m[|m| - 1] == if i == |m| - 7 then ')' else 'e'
  {
    assert m[|m| - 1] == m[i..][|m| - i - 1];
  }

  lemma EndTagGoesFirst(m: string, i: nat)
    requires StripRelease(m).None? && !HasWindowMarker(m) && i < |m| && IsFreeTag(m[i..])
    ensures GoesFirst(m, i, |m|)
  {
    assert m[i..|m|] == m[i..];
    EndTagsAre(m, i);
    forall k: nat, l: nat | Erasable(m, k, l) ensures Turn(m, k, l) > 2 || (Turn(m, k, l) == 2 && i <= k) {
      TagsAreLeft(m, k, l);
      TurnsAre(m, k, l);
      if Turn(m, k, l) == 2 {
        EndTagsAre(m, k);
      }
    }
  }

  predicate HasEndTag(m: string) {
    HasSuffix(m, "-free") || HasSuffix(m, ":free") || HasSuffix(m, " (free)")
  }

  lemma InnerTagGoesFirst(m: string, tag: string, i: nat)
    requires StripRelease(m).None? && !HasWindowMarker(m) && !HasEndTag(m) && IsFreeTag(tag)
    requires FindFrom(m, tag + "-", 0) == Some(i)
    requires tag != "-free" ==> !Contains(m, "-free-")
    requires tag == " (free)" ==> !Contains(m, ":free-")
    ensures GoesFirst(m, i, i + |tag|)
  {
    assert "-free" + "-" == "-free-" && ":free" + "-" == ":free-" && " (free)" + "-" == " (free)-";
    TagAndDash(m, tag, i);
    forall k: nat, l: nat | Erasable(m, k, l)
      ensures Turn(m, i, i + |tag|) < Turn(m, k, l) || (Turn(m, i, i + |tag|) == Turn(m, k, l) && i <= k)
    {
      TagsAreLeft(m, k, l);
      TurnsAre(m, k, l);
      if Turn(m, k, l) == 2 {
        EndTagsAre(m, k);
      }
    }
  }

  lemma InnerTagIsCut(m: string, tag: string) returns (i: nat, j: nat)
    requires StripRelease(m).None? && !HasWindowMarker(m) && !HasEndTag(m) && IsFreeTag(tag)
    requires Contains(m, tag + "-")
    requires tag != "-free" ==> !Contains(m, "-free-")
    requires tag == " (free)" ==> !Contains(m, ":free-")
    ensures GoesFirst(m, i, j) && CutTag(m, tag + "-") == Some(m[..i] + m[j..])
  {
    i := FindFrom(m, tag + "-", 0).value;
    j := i + |tag|;
    InnerTagGoesFirst(m, tag, i);
    TagAndDash(m, tag, i);
    DashStays(m, i, j);
  }

  lemma DashStays(m: string, i: nat, j: nat)
    requires i < j < |m| && m[j] == '-'
    ensures m[..i] + m[j..] == m[..i] + "-" + m[j + 1..]
  {
    assert m[j..] == "-" + m[j + 1..];
  }

  lemma EndTagIsCut(m: string) returns (i: nat)
    requires StripRelease(m).None? && !HasWindowMarker(m) && HasEndTag(m)
    ensures i <= |m| && GoesFirst(m, i, |m|) && StripFreeTag(m) == Some(m[..i] + m[|m|..])
  {
    i := |StripFreeTag(m).value|;
    EndTagGoesFirst(m, i);
    assert m[..i] == m[..i] + m[|m|..];
  }

  lemma TagGoesFirst(m: string) returns (i: nat, j: nat)
    requires StripRelease(m).None? && !HasWindowMarker(m) && StripFreeTag(m).Some?
    ensures GoesFirst(m, i, j) && StripFreeTag(m).value == m[..i] + m[j..]
  {
    assert "-free" + "-" == "-free-" && ":free" + "-" == ":free-" && " (free)" + "-" == " (free)-";
    if HasEndTag(m) {
      j := |m|;
      i := EndTagIsCut(m);
    } else if Contains(m, "-free-") {
      i, j := InnerTagIsCut(m, "-free");
    } else if Contains(m, ":free-") {
      i, j := InnerTagIsCut(m, ":free");
    } else {
      i, j := InnerTagIsCut(m, " (free)");
    }
  }

  lemma FirstPieceIsUnique(m: string, i: nat, j: nat, k: nat, l: nat)
    requires GoesFirst(m, i, j) && GoesFirst(m, k, l)
    ensures i == k && j == l
  {
    assert Turn(m, i, j) == Turn(m, k, l) && i == k;
    assert |m[i..j]| == j - i && |m[k..l]| == l - k;
  }

  lemma SomePieceGoesFirst(m: string) returns (i: nat, j: nat)
    requires StripOnce(m).Some?
    ensures GoesFirst(m, i, j) && StripOnce(m).value == m[..i] + m[j..]
  {
    if StripRelease(m).Some? {
      j := |m|;
      i := DateGoesFirst(m);
    } else if HasWindowMarker(m) {
      i, j := |m| - 4, |m|;
      MarkerGoesFirst(m);
    } else {
      i, j := TagGoesFirst(m);
    }
  }

  /** A strip erases the piece that goes first, which is one piece only. */
  lemma FirstPieceIsStripped(m: string, r: string)
    ensures StripOnce(m) == Some(r) <==> exists i: nat, j: nat :: GoesFirst(m, i, j) && r == m[..i] + m[j..]
  {
    if StripOnce(m).Some? {
      var i, j := SomePieceGoesFirst(m);
      forall k: nat, l: nat | GoesFirst(m, k, l) ensures m[..k] + m[l..] == m[..i] + m[j..] {
        FirstPieceIsUnique(m, i, j, k, l);
      }
    } else {
      StripErasesOnePiece(m);
    }
  }

  /** Each name is its predecessor without the piece that went first, until nothing goes. */
  ghost predicate IsTurnByTurn(names: seq<string>) {
    && |names| > 0 && IsStable(names[|names| - 1])
    && forall k :: 0 < k < |names| ==> ErasesFirst(names[k - 1], names[k])
  }

  ghost predicate ErasesFirst(m: string, shorter: string) {
    exists i: nat, j: nat :: GoesFirst(m, i, j) && shorter == m[..i] + m[j..]
  }

  lemma OneTurnMore(m: string, names: seq<string>)
    requires IsTurnByTurn(names) && ErasesFirst(m, names[0])
    ensures IsTurnByTurn([m] + names)
  {
    var longer := [m] + names;
    forall k | 0 < k < |longer| ensures ErasesFirst(longer[k - 1], longer[k]) {
      assert longer[k] == names[k - 1];
      if k > 1 {
        assert longer[k - 1] == names[k - 2] && ErasesFirst(names[k - 2], names[k - 1]);
      }
    }
  }

  /** Stripping takes off, turn by turn, the piece that goes first, and ends where none is left. */
  lemma {:induction false} StrippedTurnByTurn(m: string) returns (names: seq<string>)
    ensures IsTurnByTurn(names) && names[0] == m && names[|names| - 1] == Stripped(m)
    decreases |m|
  {
    StripErasesOnePiece(m);
    if StripOnce(m).None? {
      names := [m];
    } else {
      var shorter := StripOnce(m).value;
      FirstPieceIsStripped(m, shorter);
      var rest := StrippedTurnByTurn(shorter);
      OneTurnMore(m, rest);
      names := [m] + rest;
    }
  }

  /** Only one name is reached this way. */
  lemma {:induction false} TurnsAreDetermined(a: seq<string>, b: seq<string>)
    requires IsTurnByTurn(a) && IsTurnByTurn(b) && a[0] == b[0]
    ensures a == b
    decreases |a|
  {
    if |a| == 1 || |b| == 1 {
      assert |a| > 1 ==> ErasesFirst(a[0], a[1]);
      assert |b| > 1 ==> ErasesFirst(b[0], b[1]);
      assert a[0] == b[0];
    } else {
      assert ErasesFirst(a[0], a[1]) && ErasesFirst(b[0], b[1]);
      FirstPieceIsStripped(a[0], a[1]);
      FirstPieceIsStripped(b[0], b[1]);
      LaterTurns(a);
      LaterTurns(b);
      TurnsAreDetermined(a[1..], b[1..]);
      assert a == [a[0]] + a[1..] && b == [b[0]] + b[1..];
    }
  }

  lemma LaterTurns(names: seq<string>)
    requires IsTurnByTurn(names) && |names| > 1
    ensures IsTurnByTurn(names[1..])
  {
    var rest := names[1..];
    forall k | 0 < k < |rest| ensures ErasesFirst(rest[k - 1], rest[k]) {
      assert ErasesFirst(names[k], names[k + 1]);
    }
  }
}
