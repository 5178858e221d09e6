/** Cleaning up observed model names: release dates, channel tags, and modern Claude spellings. */
module ModelAliases {
  import opened Options

  predicate IsDigit(c: char) {
    '0' <= c <= '9'
  }

  predicate AllDigits(s: string) {
    forall i :: 0 <= i < |s| ==> IsDigit(s[i])
  }

  predicate IsAlphanumeric(c: char) {
    IsDigit(c) || 'a' <= c <= 'z' || 'A' <= c <= 'Z'
  }

  predicate HasSuffix(s: string, suffix: string) {
    |suffix| <= |s| && s[|s| - |suffix|..] == suffix
  }

  function DropLast(s: string, n: nat): (r: string)
    requires n <= |s|
    ensures |r| == |s| - n
  {
    s[..|s| - n]
  }

  // ----- Release dates

  /** `-20yy-mm-dd` at the end, something before it. */
  predicate HasDashedDate(m: string) {
    |m| > 11 &&
    var d := m[|m| - 10..];
    && d[..2] == "20" && d[4] == '-' && d[7] == '-'
    && (forall i :: 0 <= i < 10 && i != 4 && i != 7 ==> IsDigit(d[i]))
    && m[|m| - 11] == '-'
  }

  predicate IsCompactDate(s: string) {
    |s| == 8 && s[..2] == "20" && AllDigits(s)
  }

  predicate HasCompactDate(m: string) {
    |m| > 9 && IsCompactDate(m[|m| - 8..]) && m[|m| - 9] == '-'
  }

  /** `-mm-dd` at the end. */
  predicate HasDashedDay(m: string) {
    |m| > 6 &&
    var d := m[|m| - 5..];
    d[2] == '-' && (forall i :: 0 <= i < 5 && i != 2 ==> IsDigit(d[i])) && m[|m| - 6] == '-'
  }

  /** `-mmdd` at the end. */
  predicate HasCompactDay(m: string) {
    |m| > 5 && AllDigits(m[|m| - 4..]) && m[|m| - 5] == '-'
  }

  function StripRelease(m: string): Option<string> {
    if HasDashedDate(m) then Some(DropLast(m, 11))
    else if HasCompactDate(m) then Some(DropLast(m, 9))
    else if HasDashedDay(m) then Some(DropLast(m, 6))
    else if HasCompactDay(m) then Some(DropLast(m, 5))
    else None
  }

  // ----- Channel tags

  predicate OccursAt(s: string, needle: string, i: nat) {
    i + |needle| <= |s| && s[i..i + |needle|] == needle
  }

  /** The first occurrence at or after `i`. */
  function FindFrom(s: string, needle: string, i: nat): (r: Option<nat>)
    ensures r.Some? ==> i <= r.value && OccursAt(s, needle, r.value)
    ensures r.Some? ==> forall j: nat :: i <= j < r.value ==> !OccursAt(s, needle, j)
    ensures r.None? ==> forall j: nat :: i <= j ==> !OccursAt(s, needle, j)
    decreases |s| - i
  {
    if i + |needle| > |s| then None
    else if OccursAt(s, needle, i) then Some(i)
    else FindFrom(s, needle, i + 1)
  }

  predicate Contains(s: string, needle: string) {
    exists i: nat :: i <= |s| && OccursAt(s, needle, i)
  }

  /** Cuts the first occurrence of the needle down to its last character, a dash. */
  function CutTag(s: string, needle: string): (r: Option<string>)
    requires |needle| > 1
    ensures r.Some? <==> Contains(s, needle)
    ensures r.Some? ==> |r.value| < |s|
  {
    match FindFrom(s, needle, 0)
    case None => None
    case Some(i) => Some(s[..i] + "-" + s[i + |needle|..])
  }

  function StripFreeTag(m: string): (r: Option<string>)
    ensures r.Some? ==> |r.value| < |m|
  {
    if HasSuffix(m, "-free") then Some(DropLast(m, 5))
    else if HasSuffix(m, ":free") then Some(DropLast(m, 5))
    else if HasSuffix(m, " (free)") then Some(DropLast(m, 7))
    else if CutTag(m, "-free-").Some? then CutTag(m, "-free-")
    else if CutTag(m, ":free-").Some? then CutTag(m, ":free-")
    else CutTag(m, " (free)-")
  }

  // ----- Claude names

  const FAMILIES: set<string> := {"opus", "sonnet", "haiku", "fable"}

  function WordLength(s: string): (n: nat)
    ensures n <= |s| && forall i :: 0 <= i < n ==> IsAlphanumeric(s[i])
    ensures n < |s| ==> !IsAlphanumeric(s[n])
  {
    if |s| == 0 || !IsAlphanumeric(s[0]) then 0 else 1 + WordLength(s[1..])
  }

  /** The maximal alphanumeric stretches. */
  function Words(s: string): seq<string>
    decreases |s|
  {
    if |s| == 0 then []
    else if WordLength(s) == 0 then Words(s[1..])
    else [s[..WordLength(s)]] + Words(s[WordLength(s)..])
  }

  predicate IsClaudeCandidate(m: string) {
    exists i :: 0 <= i < |Words(m)| && (Words(m)[i] == "claude" || Words(m)[i] in FAMILIES)
  }

  // ----- One strip, and all of them

  /** The context-window marker is no part of a Claude name. */
  predicate HasWindowMarker(m: string) {
    HasSuffix(m, "[1m]") && IsClaudeCandidate(DropLast(m, 4))
  }

  function StripOnce(m: string): (r: Option<string>)
    ensures r.Some? ==> |r.value| < |m|
  {
    if StripRelease(m).Some? then StripRelease(m)
    else if HasWindowMarker(m) then Some(DropLast(m, 4))
    else StripFreeTag(m)
  }

  /** Stripping until nothing more comes off. */
  function Stripped(m: string): string
    decreases |m|
  {
    match StripOnce(m)
    case None => m
    case Some(shorter) => Stripped(shorter)
  }

  // ----- What may be erased, told independently of the order in which the code looks

  /** Character by character, `#` standing for any digit. */
  predicate Fits(s: string, shape: string) {
    |s| == |shape| && forall k :: 0 <= k < |s| ==> if shape[k] == '#' then IsDigit(s[k]) else s[k] == shape[k]
  }

  predicate IsReleaseDate(piece: string) {
    Fits(piece, "-20##-##-##") || Fits(piece, "-20######") || Fits(piece, "-##-##") || Fits(piece, "-####")
  }

  predicate IsFreeTag(piece: string) {
    piece == "-free" || piece == ":free" || piece == " (free)"
  }

  /** `m[i..j]` is a date or a window marker at the end of a name, or a free tag at the end or before a dash. */
  predicate Erasable(m: string, i: nat, j: nat) {
    i < j <= |m| &&
    (|| (i > 0 && j == |m| && IsReleaseDate(m[i..j]))
     || (j == |m| && m[i..j] == "[1m]" && IsClaudeCandidate(m[..i]))
     || (IsFreeTag(m[i..j]) && (j == |m| || m[j] == '-')))
  }

  ghost predicate IsStable(m: string) {
    forall i: nat, j: nat :: !Erasable(m, i, j)
  }

  ghost predicate ErasesTo(m: string, shorter: string) {
    exists i: nat, j: nat :: Erasable(m, i, j) && shorter == m[..i] + m[j..]
  }

  lemma ErasedEnd(m: string, i: nat)
    requires Erasable(m, i, |m|)
    ensures ErasesTo(m, m[..i])
  {
    assert m[..i] == m[..i] + m[|m|..];
  }

  lemma StrippedDateIsErased(m: string)
    ensures StripRelease(m).Some? ==> ErasesTo(m, StripRelease(m).value)
  {
    if StripRelease(m).Some? {
      ReleaseIsErasable(m);
      ErasedEnd(m, |StripRelease(m).value|);
    }
  }

  /** The last characters of a piece at the end of a name are those of the name. */
  lemma EndOfPiece(m: string, i: nat)
    requires i < |m|
    ensures m[|m| - (|m| - i - 1)..] == m[i..][1..] && m[i] == m[i..][0]
  {
  }

  lemma ReleaseIsErasable(m: string)
    requires StripRelease(m).Some?
    ensures Erasable(m, |StripRelease(m).value|, |m|)
  {
    var i := |StripRelease(m).value|;
    var piece := m[i..];
    EndOfPiece(m, i);
    assert m[i..|m|] == piece;
    DatesAreDates(m, piece);
  }

  lemma DatesAreDates(m: string, piece: string)
    requires StripRelease(m).Some? && piece == m[|StripRelease(m).value|..]
    requires piece[0] == m[|m| - |piece|] && piece[1..] == m[|m| - |piece| + 1..]
    ensures IsReleaseDate(piece)
  {
    var d := piece[1..];
    if HasDashedDate(m) {
      DashedDateFits(piece, d);
    } else if HasCompactDate(m) {
      CompactDateFits(piece, d);
    } else if HasDashedDay(m) {
      assert Fits(piece, "-##-##");
    } else {
      assert Fits(piece, "-####");
    }
  }

  lemma StartsWith20(d: string)
    requires |d| >= 2 && d[..2] == "20"
    ensures d[0] == '2' && d[1] == '0'
  {
    assert d[0] == d[..2][0] && d[1] == d[..2][1];
  }

  lemma DashedDateFits(piece: string, d: string)
    requires |piece| == 11 && piece[0] == '-' && d == piece[1..] && d[..2] == "20" && d[4] == '-' && d[7] == '-'
    requires forall i :: 0 <= i < 10 && i != 4 && i != 7 ==> IsDigit(d[i])
    ensures Fits(piece, "-20##-##-##")
  {
    StartsWith20(d);
    forall k | 0 < k < 11
      ensures piece[k] == d[k - 1]
    {
    }
  }

  lemma CompactDateFits(piece: string, d: string)
    requires |piece| == 9 && piece[0] == '-' && d == piece[1..] && d[..2] == "20" && AllDigits(d)
    ensures Fits(piece, "-20######")
  {
    StartsWith20(d);
    forall k | 0 < k < 9
      ensures piece[k] == d[k - 1]
    {
    }
  }

  lemma DateIsStripped(m: string, i: nat)
    requires 0 < i < |m| && IsReleaseDate(m[i..])
    ensures StripRelease(m).Some? && |StripRelease(m).value| <= i
  {
    var piece := m[i..];
    var d := piece[1..];
    EndOfPiece(m, i);
    if |piece| > 6 {
      assert piece[1] == '2' && piece[2] == '0';
      assert d[..2] == ['2', '0'];
    }
    if |piece| == 11 {
      assert d[4] == piece[5] && d[7] == piece[8];
      assert HasDashedDate(m);
    } else if |piece| == 9 {
      assert IsCompactDate(d);
      assert HasCompactDate(m);
    } else if |piece| == 6 {
      assert d[2] == piece[3];
      assert HasDashedDay(m);
    } else {
      assert HasCompactDay(m);
    }
  }

  lemma TagAndDash(m: string, tag: string, i: nat)
    requires OccursAt(m, tag + "-", i)
    ensures m[i..i + |tag|] == tag && m[i + |tag|] == '-'
  {
    var found := m[i..i + |tag| + 1];
    assert found == tag + "-";
    assert m[i..i + |tag|] == found[..|tag|];
    assert m[i + |tag|] == found[|tag|];
  }

  /** What a cut leaves out is the tag; the dash after it stays. */
  lemma CutErasesTag(m: string, tag: string)
    requires IsFreeTag(tag) && CutTag(m, tag + "-").Some?
    ensures ErasesTo(m, CutTag(m, tag + "-").value)
  {
    var needle := tag + "-";
    var i := FindFrom(m, needle, 0).value;
    var j := i + |tag|;
    TagAndDash(m, tag, i);
    assert m[j..] == "-" + m[j + 1..];
    assert Erasable(m, i, j);
  }

  lemma SuffixIsErased(m: string, tag: string)
    requires IsFreeTag(tag) && HasSuffix(m, tag)
    ensures ErasesTo(m, DropLast(m, |tag|))
  {
    var i := |m| - |tag|;
    assert m[i..|m|] == m[i..];
    assert Erasable(m, i, |m|);
    ErasedEnd(m, i);
  }

  lemma StrippedTagIsErased(m: string)
    requires StripFreeTag(m).Some?
    ensures ErasesTo(m, StripFreeTag(m).value)
  {
    assert "-free" + "-" == "-free-" && ":free" + "-" == ":free-" && " (free)" + "-" == " (free)-";
    if HasSuffix(m, "-free") {
      SuffixIsErased(m, "-free");
    } else if HasSuffix(m, ":free") {
      SuffixIsErased(m, ":free");
    } else if HasSuffix(m, " (free)") {
      SuffixIsErased(m, " (free)");
    } else if CutTag(m, "-free-").Some? {
      CutErasesTag(m, "-free");
    } else if CutTag(m, ":free-").Some? {
      CutErasesTag(m, ":free");
    } else {
      CutErasesTag(m, " (free)");
    }
  }

  lemma TagIsFound(m: string, tag: string, i: nat, j: nat)
    requires i < j <= |m| && m[i..j] == tag
    requires j == |m| || m[j] == '-'
    ensures HasSuffix(m, tag) || Contains(m, tag + "-")
  {
    if j == |m| {
      assert m[|m| - |tag|..] == m[i..j];
    } else {
      assert m[i..j + 1] == m[i..j] + [m[j]];
      assert OccursAt(m, tag + "-", i);
    }
  }

  lemma TagIsStripped(m: string, i: nat, j: nat)
    requires i < j <= |m| && IsFreeTag(m[i..j]) && (j == |m| || m[j] == '-')
    ensures StripFreeTag(m).Some?
  {
    assert "-free" + "-" == "-free-" && ":free" + "-" == ":free-" && " (free)" + "-" == " (free)-";
    TagIsFound(m, m[i..j], i, j);
  }

  /** A strip erases one erasable piece, and one is found exactly when there is one. */
  lemma StripErasesOnePiece(m: string)
    ensures StripOnce(m).None? <==> IsStable(m)
    ensures StripOnce(m).Some? ==> ErasesTo(m, StripOnce(m).value)
  {
    if StripOnce(m).Some? {
      StripIsErasure(m);
    } else {
      forall i: nat, j: nat ensures !Erasable(m, i, j) {
        if Erasable(m, i, j) {
          ErasableIsStripped(m, i, j);
        }
      }
    }
  }

  lemma StripIsErasure(m: string)
    requires StripOnce(m).Some?
    ensures ErasesTo(m, StripOnce(m).value)
  {
    if StripRelease(m).Some? {
      StrippedDateIsErased(m);
    } else if HasWindowMarker(m) {
      var i := |m| - 4;
      assert m[i..|m|] == m[i..] && m[..i] == DropLast(m, 4);
      assert Erasable(m, i, |m|);
      ErasedEnd(m, i);
    } else {
      StrippedTagIsErased(m);
    }
  }

  lemma ErasableIsStripped(m: string, i: nat, j: nat)
    requires Erasable(m, i, j)
    ensures StripOnce(m).Some?
  {
    if IsFreeTag(m[i..j]) && (j == |m| || m[j] == '-') {
      TagIsStripped(m, i, j);
    } else {
      assert m[i..j] == m[i..];
      if i > 0 && IsReleaseDate(m[i..]) {
        DateIsStripped(m, i);
      } else {
        assert i == |m| - 4;
        assert HasWindowMarker(m);
      }
    }
  }

  /** Each name is its predecessor with one erasable piece erased. */
  ghost predicate IsErasureChain(names: seq<string>) {
    |names| > 0 && forall k :: 0 < k < |names| ==> ErasesTo(names[k - 1], names[k])
  }

  lemma ChainGrows(m: string, names: seq<string>)
    requires IsErasureChain(names) && ErasesTo(m, names[0])
    ensures IsErasureChain([m] + names)
  {
    var longer := [m] + names;
    forall k | 0 < k < |longer| ensures ErasesTo(longer[k - 1], longer[k]) {
      assert longer[k] == names[k - 1];
      if k > 1 {
        assert longer[k - 1] == names[k - 2];
        assert ErasesTo(names[k - 2], names[k - 1]);
      }
    }
  }

  ghost predicate ErasesAllTo(m: string, r: string) {
    exists names :: IsErasureChain(names) && names[0] == m && names[|names| - 1] == r
  }

  lemma ErasesMore(m: string, shorter: string, r: string)
    requires ErasesTo(m, shorter) && ErasesAllTo(shorter, r)
    ensures ErasesAllTo(m, r)
  {
    var names :| IsErasureChain(names) && names[0] == shorter && names[|names| - 1] == r;
    ChainGrows(m, names);
    var longer := [m] + names;
    assert longer[0] == m && longer[|longer| - 1] == r;
  }

  /** The result is reached by erasing pieces only. */
  lemma {:induction false} StrippedByErasing(m: string)
    ensures ErasesAllTo(m, Stripped(m))
    decreases |m|
  {
    StripErasesOnePiece(m);
    if StripOnce(m).None? {
      assert IsErasureChain([m]) && [m][0] == m;
    } else {
      var shorter := StripOnce(m).value;
      StrippedByErasing(shorter);
      ErasesMore(m, shorter, Stripped(shorter));
    }
  }

  /** Nothing erasable is left; a second run changes nothing; exactly the stable names are kept as they are. */
  lemma {:induction false} StrippedIsStable(m: string)
    ensures IsStable(Stripped(m)) && Stripped(Stripped(m)) == Stripped(m)
    ensures IsStable(m) <==> Stripped(m) == m
    ensures |Stripped(m)| <= |m|
    decreases |m|
  {
    StripErasesOnePiece(m);
    if StripOnce(m).Some? {
      StrippedIsStable(StripOnce(m).value);
    }
  }

  // ----- All names

  predicate Ascii(m: string) {
    forall i :: 0 <= i < |m| ==> m[i] < 128 as char
  }

  /** What observed names are cleaned to; a name that is not ASCII is left alone. */
  function Cleaned(m: string): string {
    if m != "" && Ascii(m) then Stripped(m) else m
  }

  lemma ErasingKeepsAscii(m: string, shorter: string)
    requires Ascii(m) && ErasesTo(m, shorter)
    ensures Ascii(shorter)
  {
    var i: nat, j: nat :| Erasable(m, i, j) && shorter == m[..i] + m[j..];
  }

  lemma {:induction false} StrippingKeepsAscii(m: string)
    requires Ascii(m)
    ensures Ascii(Stripped(m))
    decreases |m|
  {
    if StripOnce(m).Some? {
      StripErasesOnePiece(m);
      ErasingKeepsAscii(m, StripOnce(m).value);
      StrippingKeepsAscii(StripOnce(m).value);
    }
  }

  /** Cleaning keeps ASCII names ASCII and all others as they are, and cleaning twice is cleaning once. */
  lemma CleanedIsStable(m: string)
    ensures Ascii(Cleaned(m)) <==> Ascii(m)
    ensures if Ascii(m) then IsStable(Cleaned(m)) && ErasesAllTo(m, Cleaned(m)) else Cleaned(m) == m
    ensures Cleaned(Cleaned(m)) == Cleaned(m)
  {
    StrippedIsStable(m);
    StrippedByErasing(m);
    if Ascii(m) {
      StrippingKeepsAscii(m);
    }
  }

  method Clean(m: string) returns (r: string)
    ensures r == Cleaned(m)
  {
    if m == "" || !Ascii(m) {
      return m;
    }
    r := StripToStable(m);
  }

  method StripToStable(m: string) returns (r: string)
    ensures r == Stripped(m) && IsStable(r)
  {
    StrippedIsStable(m);
    r := m;
    while true
      invariant Stripped(r) == Stripped(m)
      decreases |r|
    {
      var strip := StripOnce(r);
      if strip.None? {
        return;
      }
      r := strip.value;
    }
  }
}
