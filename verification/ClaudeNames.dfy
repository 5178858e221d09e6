/** The canonical spelling of a modern Claude name, told on the characters of the name. */
module ClaudeNames {
  import opened Options
  import opened ModelAliases
  import opened ModernClaude
  import opened NameParts

  /** The last part between slashes, or everything if there are only slashes. */
  ghost predicate IsSegment(m: string, segment: string) {
    if OnlySlashes(m) then segment == m else exists i: nat, j: nat :: IsLastPart(m, i, j) && segment == m[i..j]
  }

  /** The segment without the ending that marks a thinking model. */
  ghost predicate IsCore(segment: string, core: string) {
    segment == core + "-thinking" || (segment == core && forall x: string :: segment != x + "-thinking")
  }

  /** All maximal stretches of letters and digits, from left to right. */
  ghost predicate AreWords(text: string, words: seq<string>) {
    exists starts :: StandAt(words, text, starts) && AreAllStretches(text, starts)
  }

  lemma EndsIn(x: string, suffix: string)
    ensures HasSuffix(x + suffix, suffix)
  {
  }

  lemma CoreIsExact(segment: string, core: string)
    ensures IsCore(segment, core) <==> core == WithoutSuffix(segment, "-thinking")
  {
    var n := |segment| - 9;
    if HasSuffix(segment, "-thinking") {
      assert segment == segment[..n] + "-thinking";
      if segment == core + "-thinking" {
        assert core == segment[..n];
      }
    } else {
      forall x: string ensures segment != x + "-thinking" {
        EndsIn(x, "-thinking");
      }
    }
  }

  // ----- The words are determined

  lemma WordIsDetermined(text: string, i: nat, v: string, w: string)
    requires IsWordAt(text, i, v) && IsWordAt(text, i, w)
    ensures v == w
  {
    StretchEnds(text, i, i + |v|, i + |w|);
  }

  ghost predicate Ascends(a: seq<nat>) {
    forall k, l :: 0 <= k < l < |a| ==> a[k] < a[l]
  }

  ghost predicate Within(a: seq<nat>, b: seq<nat>) {
    forall k :: 0 <= k < |a| ==> a[k] in b
  }

  lemma {:induction false} SameAscent(a: seq<nat>, b: seq<nat>)
    requires Ascends(a) && Ascends(b) && Within(a, b) && Within(b, a)
    ensures a == b
    decreases |a|
  {
    NotWithinNothing(a, b);
    NotWithinNothing(b, a);
    if |a| > 0 {
      var n, m := |a| - 1, |b| - 1;
      assert a[n] in b && b[m] in a;
      WithoutLast(a, b);
      WithoutLast(b, a);
      SameAscent(a[..n], b[..m]);
      assert a == a[..n] + [a[n]] && b == b[..m] + [b[m]];
    }
  }

  lemma NotWithinNothing(a: seq<nat>, b: seq<nat>)
    requires Within(a, b)
    ensures |b| == 0 ==> |a| == 0
  {
    if |a| > 0 {
      assert a[0] in b;
    }
  }

  lemma WithoutLast(a: seq<nat>, b: seq<nat>)
    requires |a| > 0 && |b| > 0 && a[|a| - 1] == b[|b| - 1] && Ascends(a) && Within(a, b)
    ensures Within(a[..|a| - 1], b[..|b| - 1])
  {
    var front := b[..|b| - 1];
    forall k | 0 <= k < |a| - 1 ensures a[k] in front {
      assert a[k] in b && a[k] != b[|b| - 1];
      assert b == front + [b[|b| - 1]];
    }
  }

  lemma SameStarts(text: string, v: seq<string>, a: seq<nat>, w: seq<string>, b: seq<nat>)
    requires StandAt(v, text, a) && AreAllStretches(text, a) && StandAt(w, text, b) && AreAllStretches(text, b)
    ensures Within(a, b)
  {
    forall k | 0 <= k < |a| ensures a[k] in b {
      assert IsWordAt(text, a[k], v[k]);
    }
  }

  lemma WordsAreDetermined(text: string, v: seq<string>, w: seq<string>)
    requires AreWords(text, v) && AreWords(text, w)
    ensures v == w
  {
    var a :| StandAt(v, text, a) && AreAllStretches(text, a);
    var b :| StandAt(w, text, b) && AreAllStretches(text, b);
    SameStarts(text, v, a, w, b);
    SameStarts(text, w, b, v, a);
    SameAscent(a, b);
    forall k | 0 <= k < |v| ensures v[k] == w[k] {
      WordIsDetermined(text, a[k], v[k], w[k]);
    }
  }

  lemma WordsAreExact(text: string, words: seq<string>)
    ensures AreWords(text, words) <==> words == Words(text)
  {
    var starts := WordsAreStretches(text);
    if AreWords(text, words) {
      WordsAreDetermined(text, words, Words(text));
    }
  }

  // ----- The first name that reads as one

  ghost predicate WindowReads(words: seq<string>, i: nat, out: string) {
    i + 2 < |words| && ReadsAsVersion(words[i..i + 3], out)
  }

  ghost predicate FamilyReads(words: seq<string>, i: nat, out: string) {
    && i < |words| && IsFamily(words[i])
    && exists c :: ReadsAsMajor(words, i, c) && out == "claude-" + words[i] + "-" + [c]
  }

  ghost predicate NoWindowReads(words: seq<string>, n: nat) {
    forall i: nat, out :: i < n ==> !WindowReads(words, i, out)
  }

  ghost predicate NoFamilyReads(words: seq<string>, n: nat) {
    forall i: nat, out :: i < n ==> !FamilyReads(words, i, out)
  }

  /** The first three words with a family and its two digits; or else the first family with one digit; or nothing. */
  ghost predicate ReadsFirst(words: seq<string>, r: Option<string>) {
    match r
    case Some(out) =>
      || (exists i: nat :: WindowReads(words, i, out) && NoWindowReads(words, i))
      || (NoWindowReads(words, |words|) && exists i: nat :: FamilyReads(words, i, out) && NoFamilyReads(words, i))
    case None => NoWindowReads(words, |words|) && NoFamilyReads(words, |words|)
  }

  lemma WindowsAgree(words: seq<string>, n: nat)
    ensures NoWindowBefore(words, n) <==> NoWindowReads(words, n)
    ensures forall i: nat, out :: i + 2 < |words| ==> (AtWindow(words, i) == Some(out) <==> WindowReads(words, i, out))
  {
    forall i: nat, out | i + 2 < |words| ensures AtWindow(words, i) == Some(out) <==> WindowReads(words, i, out) {
      WindowIsExact(words, i, out);
    }
    if !NoWindowBefore(words, n) {
      var i: nat :| i < n && i + 2 < |words| && AtWindow(words, i).Some?;
      assert WindowReads(words, i, AtWindow(words, i).value);
    }
  }

  lemma FamiliesAgree(words: seq<string>, n: nat)
    ensures NoFamilyBefore(words, n) <==> NoFamilyReads(words, n)
    ensures forall i: nat, out :: i < |words| ==> (AtFamily(words, i) == Some(out) <==> FamilyReads(words, i, out))
  {
    forall i: nat, out | i < |words| ensures AtFamily(words, i) == Some(out) <==> FamilyReads(words, i, out) {
      FamilyIsExact(words, i, out);
    }
    if !NoFamilyBefore(words, n) {
      var i: nat :| i < n && i < |words| && AtFamily(words, i).Some?;
      assert FamilyReads(words, i, AtFamily(words, i).value);
    }
  }

  lemma InWindowReads(words: seq<string>, out: string)
    ensures InWindow(words, Some(out)) <==> exists i: nat :: WindowReads(words, i, out) && NoWindowReads(words, i)
  {
    forall i: nat ensures NoWindowBefore(words, i) <==> NoWindowReads(words, i) {
      WindowsAgree(words, i);
    }
    WindowsAgree(words, 0);
    if InWindow(words, Some(out)) {
      var i: nat :| i + 2 < |words| && Some(out) == AtWindow(words, i) && NoWindowBefore(words, i);
      assert WindowReads(words, i, out);
    }
  }

  lemma InFamilyReads(words: seq<string>, out: string)
    ensures InFamily(words, Some(out)) <==> exists i: nat :: FamilyReads(words, i, out) && NoFamilyReads(words, i)
  {
    forall i: nat ensures NoFamilyBefore(words, i) <==> NoFamilyReads(words, i) {
      FamiliesAgree(words, i);
    }
    FamiliesAgree(words, 0);
    if InFamily(words, Some(out)) {
      var i: nat :| i < |words| && Some(out) == AtFamily(words, i) && NoFamilyBefore(words, i);
      assert FamilyReads(words, i, out);
    }
  }

  lemma FirstReadIsFind(words: seq<string>, r: Option<string>)
    ensures IsFirstFind(words, r) <==> ReadsFirst(words, r)
  {
    WindowsAgree(words, |words|);
    FamiliesAgree(words, |words|);
    if r.Some? {
      InWindowReads(words, r.value);
      InFamilyReads(words, r.value);
    }
  }

  /** What the two scans give for a name, from its characters to the canonical spelling. */
  ghost predicate IsSpelledOut(m: string, r: Option<string>) {
    exists segment, core, words ::
      IsSegment(m, segment) && IsCore(segment, core) && AreWords(core, words) && ReadsFirst(words, r)
  }

  lemma ClaudeNameIsExact(m: string, r: Option<string>)
    ensures IsFirstFind(Parts(m), r) <==> IsSpelledOut(m, r)
  {
    var segment := LastSegment(m);
    var core := WithoutSuffix(segment, "-thinking");
    LastSegmentIsExact(m, segment);
    CoreIsExact(segment, core);
    WordsAreExact(core, Parts(m));
    FirstReadIsFind(Parts(m), r);
    forall s, c, words | IsSegment(m, s) && IsCore(s, c) && AreWords(c, words) ensures words == Parts(m) {
      LastSegmentIsExact(m, s);
      CoreIsExact(s, c);
      WordsAreExact(c, words);
    }
  }
}
