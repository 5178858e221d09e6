/** Ordered model-name rules with `*` patterns, and freezing user and bundled rules into one list. */
module ModelMappings {

  import opened Options
  import opened Words

  /** The bytes of a UTF-8 string. */
  type Text = seq<byte>

  const STAR: byte := 42

  function Lower(b: byte): byte {
    if 65 <= b <= 90 then b + 32 else b
  }

  predicate SameLetter(a: byte, b: byte) {
    Lower(a) == Lower(b)
  }

  /**
   * What a pattern means: a star stands for any stretch of the value, every other byte for
   * itself up to ASCII case, and the whole value must be used up.
   */
  predicate Matches(pattern: Text, value: Text) {
    if |pattern| == 0 then |value| == 0
    else if pattern[0] == STAR then
      exists k :: 0 <= k <= |value| && Matches(pattern[1..], value[k..])
    else
      |value| > 0 && SameLetter(pattern[0], value[0]) && Matches(pattern[1..], value[1..])
  }

  /** The literal stretch `pattern[from..to]` agrees with the value starting at `at`. */
  ghost predicate Agrees(pattern: Text, value: Text, from: nat, to: nat, at: nat) {
    && from <= to <= |pattern| && at + (to - from) <= |value|
    && forall i :: from <= i < to ==> pattern[i] != STAR && SameLetter(pattern[i], value[at + i - from])
  }

  /** A leading star may as well swallow more of the value. */
  lemma StarSwallows(pattern: Text, value: Text, less: nat, more: nat)
    requires |pattern| > 0 && pattern[0] == STAR && less <= more <= |value|
    requires Matches(pattern, value[more..])
    ensures Matches(pattern, value[less..])
  {
    var k :| 0 <= k <= |value[more..]| && Matches(pattern[1..], value[more..][k..]);
    assert value[more..][k..] == value[less..][more - less + k..];
  }

  /** Behind a literal stretch the match goes on where the stretch ends. */
  lemma {:induction false} MatchLiteral(pattern: Text, value: Text, from: nat, to: nat, at: nat)
    requires from <= to && Agrees(pattern, value, from, to, at)
    ensures Matches(pattern[from..], value[at..]) <==> Matches(pattern[to..], value[at + (to - from)..])
    decreases |pattern| - from
  {
    if from < to {
      MatchLiteral(pattern, value, from + 1, to, at + 1);
      assert pattern[from..][1..] == pattern[from + 1..] && value[at..][1..] == value[at + 1..];
    }
  }

  /** A literal stretch without stars can only match where it agrees. */
  lemma {:induction false} LiteralMustAgree(pattern: Text, value: Text, from: nat, to: nat, at: nat)
    requires from <= to <= |pattern| && at <= |value|
    requires forall i :: from <= i < to ==> pattern[i] != STAR
    requires Matches(pattern[from..], value[at..])
    ensures Agrees(pattern, value, from, to, at)
    decreases |pattern| - from
  {
    if from < to {
      assert pattern[from..][1..] == pattern[from + 1..] && value[at..][1..] == value[at + 1..];
      LiteralMustAgree(pattern, value, from + 1, to, at + 1);
    }
  }

  /**
   * What the remembered star stands for: everything the pattern can still do from that star
   * with the value from `consumed` on, and the literals behind it agree so far.
   */
  ghost predicate Remembers(pattern: Text, value: Text, star: nat, consumed: nat, p: nat, v: nat) {
    && star < p <= |pattern| && pattern[star] == STAR
    && consumed <= v <= |value| && v - consumed == p - star - 1
    && Agrees(pattern, value, star + 1, p, consumed)
    && (Matches(pattern, value) <==> Matches(pattern[star..], value[consumed..]))
  }

  /** If the remembered star fits anywhere, the pattern from the next star on fits right here. */
  lemma NextStarFits(pattern: Text, value: Text, star: nat, consumed: nat, p: nat, v: nat)
    requires Remembers(pattern, value, star, consumed, p, v)
    requires p < |pattern| && pattern[p] == STAR && Matches(pattern[star..], value[consumed..])
    ensures Matches(pattern[p..], value[v..])
  {
    var rest := pattern[star..];
    assert rest[1..] == pattern[star + 1..];
    var k :| 0 <= k <= |value[consumed..]| && Matches(rest[1..], value[consumed..][k..]);
    var at := consumed + k;
    assert value[consumed..][k..] == value[at..];
    LiteralMustAgree(pattern, value, star + 1, p, at);
    MatchLiteral(pattern, value, star + 1, p, at);
    StarSwallows(pattern[p..], value, v, at + (p - star - 1));
  }

  /** Meeting the next star settles the previous one for good: the earliest fit is as good as any. */
  lemma NextStar(pattern: Text, value: Text, star: nat, consumed: nat, p: nat, v: nat)
    requires Remembers(pattern, value, star, consumed, p, v)
    requires p < |pattern| && pattern[p] == STAR
    ensures Remembers(pattern, value, p, v, p + 1, v)
  {
    var rest := pattern[star..];
    assert rest[1..] == pattern[star + 1..];
    MatchLiteral(pattern, value, star + 1, p, consumed);
    if Matches(rest, value[consumed..]) {
      NextStarFits(pattern, value, star, consumed, p, v);
    }
    if Matches(pattern[p..], value[v..]) {
      assert value[consumed..][0..] == value[consumed..];
      assert Matches(rest[1..], value[consumed..][0..]);
    }
  }

  /** A mismatch rules out this position of the literals, so the star takes one more byte. */
  lemma Backtrack(pattern: Text, value: Text, star: nat, consumed: nat, p: nat, v: nat)
    requires Remembers(pattern, value, star, consumed, p, v) && v < |value|
    requires p == |pattern| || (pattern[p] != STAR && !SameLetter(pattern[p], value[v]))
    ensures Remembers(pattern, value, star, consumed + 1, star + 1, consumed + 1)
  {
    var rest := pattern[star..];
    assert rest[1..] == pattern[star + 1..];
    MatchLiteral(pattern, value, star + 1, p, consumed);
    assert !Matches(pattern[p..], value[v..]);
    if Matches(rest, value[consumed..]) {
      var k :| 0 <= k <= |value[consumed..]| && Matches(rest[1..], value[consumed..][k..]);
      assert value[consumed..][0..] == value[consumed..];
      assert k > 0;
      assert value[consumed..][k..] == value[consumed + 1..][k - 1..];
    }
    if Matches(rest, value[consumed + 1..]) {
      StarSwallows(rest, value, consumed, consumed + 1);
    }
  }

  lemma {:induction false} TrailingStars(pattern: Text, p: nat)
    requires p <= |pattern|
    ensures Matches(pattern[p..], []) <==> forall i :: p <= i < |pattern| ==> pattern[i] == STAR
    decreases |pattern| - p
  {
    if p < |pattern| {
      TrailingStars(pattern, p + 1);
      var empty: Text := [];
      assert pattern[p..][1..] == pattern[p + 1..] && empty[0..] == empty;
    }
  }

  lemma EndOfValue(pattern: Text, value: Text, star: nat, consumed: nat, p: nat)
    requires Remembers(pattern, value, star, consumed, p, |value|)
    ensures Matches(pattern, value) <==> Matches(pattern[p..], [])
  {
    var rest := pattern[star..];
    assert rest[1..] == pattern[star + 1..] && value[|value|..] == [];
    MatchLiteral(pattern, value, star + 1, p, consumed);
    if Matches(pattern[p..], []) {
      assert value[consumed..][0..] == value[consumed..];
    }
    if Matches(rest, value[consumed..]) {
      var k :| 0 <= k <= |value[consumed..]| && Matches(rest[1..], value[consumed..][k..]);
      var at := consumed + k;
      assert value[consumed..][k..] == value[at..];
      LiteralMustAgree(pattern, value, star + 1, p, at);
    }
  }

  lemma NextLetter(pattern: Text, value: Text, p: nat, v: nat)
    requires p < |pattern| && v < |value| && pattern[p] != STAR && SameLetter(pattern[p], value[v])
    ensures Matches(pattern[p..], value[v..]) <==> Matches(pattern[p + 1..], value[v + 1..])
  {
    assert pattern[p..][1..] == pattern[p + 1..] && value[v..][1..] == value[v + 1..];
  }

  /** Only stars match the empty rest of a value. */
  method SkipStars(pattern: Text, from: nat) returns (atEnd: bool)
    requires from <= |pattern|
    ensures atEnd <==> Matches(pattern[from..], [])
  {
    TrailingStars(pattern, from);
    var p := from;
    while p < |pattern| && pattern[p] == STAR
      invariant from <= p <= |pattern|
      invariant forall i :: from <= i < p ==> pattern[i] == STAR
    {
      p := p + 1;
    }
    atEnd := p == |pattern|;
  }

  /** Whether the whole value matches is still decided by what the loop remembers. */
  ghost predicate Undecided(pattern: Text, value: Text, star: int, consumed: nat, p: nat, v: nat) {
    && p <= |pattern| && consumed <= v <= |value|
    && if star == -1 then Matches(pattern, value) <==> Matches(pattern[p..], value[v..])
       else 0 <= star && Remembers(pattern, value, star, consumed, p, v)
  }

  lemma TakeStar(pattern: Text, value: Text, star: int, consumed: nat, p: nat, v: nat)
    requires Undecided(pattern, value, star, consumed, p, v) && p < |pattern| && pattern[p] == STAR
    ensures Undecided(pattern, value, p, v, p + 1, v)
  {
    if star != -1 {
      NextStar(pattern, value, star, consumed, p, v);
    }
  }

  lemma TakeLetter(pattern: Text, value: Text, star: int, consumed: nat, p: nat, v: nat)
    requires Undecided(pattern, value, star, consumed, p, v) && p < |pattern| && v < |value|
    requires pattern[p] != STAR && SameLetter(pattern[p], value[v])
    ensures Undecided(pattern, value, star, consumed, p + 1, v + 1)
  {
    NextLetter(pattern, value, p, v);
  }

  lemma NoWayOn(pattern: Text, value: Text, consumed: nat, p: nat, v: nat)
    requires Undecided(pattern, value, -1, consumed, p, v) && v < |value|
    requires p == |pattern| || (pattern[p] != STAR && !SameLetter(pattern[p], value[v]))
    ensures !Matches(pattern, value)
  {
  }

  /** The matcher that remembers one star at a time. */
  method WildcardMatches(pattern: Text, value: Text) returns (matched: bool)
    ensures matched <==> Matches(pattern, value)
  {
    var p, v := 0, 0;
    var star, consumed := -1, 0;
    assert pattern[0..] == pattern && value[0..] == value;
    while v < |value|
      invariant 0 <= p && 0 <= consumed && 0 <= v && -1 <= star < p
      invariant Undecided(pattern, value, star, consumed, p, v)
      decreases |pattern| - star, |value| - consumed, |value| - v
    {
      if p < |pattern| && pattern[p] == STAR {
        TakeStar(pattern, value, star, consumed, p, v);
        star := p;
        p := p + 1;
        consumed := v;
      } else if p < |pattern| && SameLetter(pattern[p], value[v]) {
        TakeLetter(pattern, value, star, consumed, p, v);
        p := p + 1;
        v := v + 1;
      } else if star != -1 {
        Backtrack(pattern, value, star, consumed, p, v);
        consumed := consumed + 1;
        v := consumed;
        p := star + 1;
      } else {
        NoWayOn(pattern, value, consumed, p, v);
        return false;
      }
    }
    assert value[|value|..] == [];
    if star != -1 {
      EndOfValue(pattern, value, star, consumed, p);
    }
    matched := SkipStars(pattern, p);
  }

  function LowerAll(t: Text): (r: Text)
    ensures |r| == |t|
  {
    seq(|t|, i requires 0 <= i < |t| => Lower(t[i]))
  }

  /** Neither the pattern's nor the value's ASCII case matters. */
  lemma {:induction false} CaseIsIgnored(pattern: Text, value: Text)
    ensures Matches(pattern, value) <==> Matches(LowerAll(pattern), LowerAll(value))
    decreases |pattern|
  {
    if |pattern| > 0 {
      var lowered, text := LowerAll(pattern), LowerAll(value);
      assert lowered[1..] == LowerAll(pattern[1..]);
      if pattern[0] == STAR {
        forall k | 0 <= k <= |value|
          ensures Matches(pattern[1..], value[k..]) <==> Matches(lowered[1..], text[k..])
        {
          CaseIsIgnored(pattern[1..], value[k..]);
          assert text[k..] == LowerAll(value[k..]);
        }
      } else if |value| > 0 {
        CaseIsIgnored(pattern[1..], value[1..]);
        assert text[1..] == LowerAll(value[1..]);
      }
    }
  }

  /** Equal, or one the lower-case form of the other. */
  predicate SameAscii(a: byte, b: byte) {
    a == b || (65 <= a <= 90 && b == a + 32) || (65 <= b <= 90 && a == b + 32)
  }

  predicate SameText(a: Text, b: Text) {
    |a| == |b| && forall i :: 0 <= i < |a| ==> SameAscii(a[i], b[i])
  }

  /** A pattern without a star matches exactly the values that are the same text up to ASCII case. */
  lemma {:induction false} LiteralMatches(pattern: Text, value: Text)
    requires STAR !in pattern
    ensures Matches(pattern, value) <==> SameText(pattern, value)
    decreases |pattern|
  {
    if |pattern| > 0 && |value| > 0 {
      assert pattern == [pattern[0]] + pattern[1..] && value == [value[0]] + value[1..];
      LiteralMatches(pattern[1..], value[1..]);
    }
  }

  /** A star stands for any stretch: what is before it and behind it matches on both sides of one. */
  lemma {:induction false} StarMatches(before: Text, behind: Text, value: Text)
    requires STAR !in before
    ensures Matches(before + [STAR] + behind, value) <==>
              exists i, j :: 0 <= i <= j <= |value| && SameText(before, value[..i]) && Matches(behind, value[j..])
    decreases |before|
  {
    var pattern := before + [STAR] + behind;
    if |before| == 0 {
      assert pattern[0] == STAR && pattern[1..] == behind;
      if k :| 0 <= k <= |value| && Matches(behind, value[k..]) {
        assert SameText(before, value[..0]);
      }
    } else {
      assert pattern[0] == before[0] && pattern[1..] == before[1..] + [STAR] + behind;
      assert before == [before[0]] + before[1..];
      if |value| > 0 {
        StarMatches(before[1..], behind, value[1..]);
        StarStep(before, behind, value);
      }
    }
  }

  lemma StarStep(before: Text, behind: Text, value: Text)
    requires |before| > 0 && |value| > 0
    ensures (exists i, j :: 0 <= i <= j <= |value| && SameText(before, value[..i]) && Matches(behind, value[j..]))
        <==> SameAscii(before[0], value[0])
             && exists i, j :: 0 <= i <= j <= |value[1..]|
                  && SameText(before[1..], value[1..][..i]) && Matches(behind, value[1..][j..])
  {
    var rest := value[1..];
    if i, j :| 0 <= i <= j <= |value| && SameText(before, value[..i]) && Matches(behind, value[j..]) {
      assert SameAscii(before[0], value[..i][0]);
      forall k | 0 <= k < |before[1..]| ensures SameAscii(before[1..][k], rest[..i - 1][k]) {
        assert SameAscii(before[k + 1], value[..i][k + 1]);
      }
      assert SameText(before[1..], rest[..i - 1]) && value[j..] == rest[j - 1..];
    }
    if i, j :| SameAscii(before[0], value[0]) && 0 <= i <= j <= |rest| && SameText(before[1..], rest[..i])
               && Matches(behind, rest[j..]) {
      forall k | 0 <= k < |before| ensures SameAscii(before[k], value[..i + 1][k]) {
        if k > 0 {
          assert SameAscii(before[1..][k - 1], rest[..i][k - 1]);
        }
      }
      assert SameText(before, value[..i + 1]) && rest[j..] == value[j + 1..];
    }
  }

  // ----- Ordered rules

  datatype Rule = Rule(pattern: Text, model: Text)

  /** Ordered user rules, with or without the bundled ones behind them. */
  datatype Mappings = Mappings(includeDefaults: bool, rules: seq<Rule>)

  /** The clean-up shared with the decoders, piece by piece. */
  datatype Normalizer = Normalizer(
    trim: Text -> Text, terminal: Text -> Text, syntax: Text -> Text, slug: Text -> Option<Text>)

  /** The spellings under which an observation is looked up. */
  function Candidates(n: Normalizer, observed: Text, decoded: Text): seq<Text> {
    var terminal := n.terminal(observed);
    [n.trim(observed), terminal, n.syntax(observed), n.syntax(decoded)]
    + match n.slug(terminal) case Some(slug) => [slug] case None => []
  }

  predicate Hits(rule: Rule, candidates: seq<Text>) {
    exists i :: 0 <= i < |candidates| && Matches(rule.pattern, candidates[i])
  }

  /** The target of the first rule that hits any spelling. */
  function FirstHit(rules: seq<Rule>, candidates: seq<Text>): Option<Text> {
    if |rules| == 0 then None
    else if Hits(rules[0], candidates) then Some(rules[0].model)
    else FirstHit(rules[1..], candidates)
  }

  /** Array order is the sole priority: the target is that of the least index that hits. */
  lemma {:induction false} FirstHitIsLeast(rules: seq<Rule>, candidates: seq<Text>, target: Text)
    ensures FirstHit(rules, candidates) == Some(target) <==>
              exists i :: 0 <= i < |rules| && rules[i].model == target && Hits(rules[i], candidates)
                          && forall j :: 0 <= j < i ==> !Hits(rules[j], candidates)
    ensures FirstHit(rules, candidates) == None <==> forall i :: 0 <= i < |rules| ==> !Hits(rules[i], candidates)
  {
    if |rules| > 0 {
      var rest := rules[1..];
      assert forall i :: 1 <= i < |rules| ==> rules[i] == rest[i - 1];
      if Hits(rules[0], candidates) {
      } else {
        FirstHitIsLeast(rest, candidates, target);
        if i :| 0 <= i < |rest| && rest[i].model == target && Hits(rest[i], candidates)
                && forall j :: 0 <= j < i ==> !Hits(rest[j], candidates) {
          assert rules[i + 1].model == target && Hits(rules[i + 1], candidates);
          forall j | 0 <= j < i + 1
            ensures !Hits(rules[j], candidates)
          {
            if j > 0 {
              assert rules[j] == rest[j - 1];
            }
          }
        }
      }
    }
  }

  /** The order of the spellings plays no part. */
  lemma {:induction false} SpellingOrderIsIrrelevant(rules: seq<Rule>, a: seq<Text>, b: seq<Text>)
    requires forall c :: c in a <==> c in b
    ensures FirstHit(rules, a) == FirstHit(rules, b)
  {
    if |rules| > 0 {
      SpellingOrderIsIrrelevant(rules[1..], a, b);
      SameHits(rules[0], a, b);
      SameHits(rules[0], b, a);
    }
  }

  lemma SameHits(rule: Rule, a: seq<Text>, b: seq<Text>)
    requires forall c :: c in a ==> c in b
    ensures Hits(rule, a) ==> Hits(rule, b)
  {
    if i :| 0 <= i < |a| && Matches(rule.pattern, a[i]) {
      assert a[i] in b;
    }
  }

  /** The lookup as the source runs it: each rule against all spellings before the next rule. */
  method MatchRules(rules: seq<Rule>, candidates: seq<Text>) returns (target: Option<Text>)
    ensures target == FirstHit(rules, candidates)
  {
    assert rules[0..] == rules;
    for r := 0 to |rules|
      invariant FirstHit(rules, candidates) == FirstHit(rules[r..], candidates)
    {
      assert rules[r..][1..] == rules[r + 1..];
      for c := 0 to |candidates|
        invariant forall i :: 0 <= i < c ==> !Matches(rules[r].pattern, candidates[i])
      {
        var matched := WildcardMatches(rules[r].pattern, candidates[c]);
        if matched {
          return Some(rules[r].model);
        }
      }
    }
    target := None;
  }

  // ----- Naming an observation

  /** The name under which an observation is grouped and priced. */
  function Canonicalize(m: Mappings, defaults: seq<Rule>, n: Normalizer, observed: Text, decoded: Text): Text {
    match FirstHit(m.rules, Candidates(n, observed, decoded))
    case Some(target) => target
    case None =>
      if m.includeDefaults then
        match FirstHit(defaults, Candidates(n, observed, decoded))
        case Some(target) => target
        case None => n.syntax(decoded)
      else n.syntax(decoded)
  }

  /** The rule's pattern matches one of the spellings. */
  ghost predicate Fires(rule: Rule, n: Normalizer, observed: Text, decoded: Text) {
    || Matches(rule.pattern, n.trim(observed)) || Matches(rule.pattern, n.terminal(observed))
    || Matches(rule.pattern, n.syntax(observed)) || Matches(rule.pattern, n.syntax(decoded))
    || (n.slug(n.terminal(observed)).Some? && Matches(rule.pattern, n.slug(n.terminal(observed)).value))
  }

  ghost predicate NoneFires(rules: seq<Rule>, n: Normalizer, observed: Text, decoded: Text) {
    forall i :: 0 <= i < |rules| ==> !Fires(rules[i], n, observed, decoded)
  }

  ghost predicate FirstToFire(rules: seq<Rule>, i: nat, n: Normalizer, observed: Text, decoded: Text) {
    && i < |rules| && Fires(rules[i], n, observed, decoded)
    && forall j :: 0 <= j < i ==> !Fires(rules[j], n, observed, decoded)
  }

  ghost predicate NamedByRule(rules: seq<Rule>, n: Normalizer, observed: Text, decoded: Text, name: Text) {
    exists i: nat :: FirstToFire(rules, i, n, observed, decoded) && name == rules[i].model
  }

  /**
   * The name of an observation: the target of the first user rule that fires; if none does, and bundled
   * rules are included, that of the first bundled rule that fires; otherwise the normalized decoded name.
   */
  ghost predicate IsNameOf(
      m: Mappings, defaults: seq<Rule>, n: Normalizer, observed: Text, decoded: Text, name: Text)
  {
    if !NoneFires(m.rules, n, observed, decoded) then NamedByRule(m.rules, n, observed, decoded, name)
    else if m.includeDefaults && !NoneFires(defaults, n, observed, decoded) then
      NamedByRule(defaults, n, observed, decoded, name)
    else name == n.syntax(decoded)
  }

  lemma FiresIsHits(rule: Rule, n: Normalizer, observed: Text, decoded: Text)
    ensures Fires(rule, n, observed, decoded) <==> Hits(rule, Candidates(n, observed, decoded))
  {
    var c := Candidates(n, observed, decoded);
    assert c[0] == n.trim(observed) && c[1] == n.terminal(observed);
    assert c[2] == n.syntax(observed) && c[3] == n.syntax(decoded);
    if n.slug(n.terminal(observed)).Some? {
      assert c[4] == n.slug(n.terminal(observed)).value;
    }
  }

  lemma FirstHitNames(rules: seq<Rule>, n: Normalizer, observed: Text, decoded: Text)
    ensures FirstHit(rules, Candidates(n, observed, decoded)).None? <==> NoneFires(rules, n, observed, decoded)
    ensures forall name :: NamedByRule(rules, n, observed, decoded, name)
                           <==> FirstHit(rules, Candidates(n, observed, decoded)) == Some(name)
  {
    forall rule ensures Fires(rule, n, observed, decoded) <==> Hits(rule, Candidates(n, observed, decoded)) {
      FiresIsHits(rule, n, observed, decoded);
    }
    forall name
      ensures NamedByRule(rules, n, observed, decoded, name)
          <==> FirstHit(rules, Candidates(n, observed, decoded)) == Some(name)
    {
      FirstHitIsLeast(rules, Candidates(n, observed, decoded), name);
    }
    FirstHitIsLeast(rules, Candidates(n, observed, decoded), []);
  }

  /** Every observation has exactly one name, and it is the canonical one. */
  lemma CanonicalNameIsExact(
      m: Mappings, defaults: seq<Rule>, n: Normalizer, observed: Text, decoded: Text, name: Text)
    ensures IsNameOf(m, defaults, n, observed, decoded, name)
        <==> name == Canonicalize(m, defaults, n, observed, decoded)
  {
    FirstHitNames(m.rules, n, observed, decoded);
    FirstHitNames(defaults, n, observed, decoded);
  }

  /** All user rules are tried on all spellings before the first bundled rule is. */
  method CanonicalizeObservation(
      m: Mappings, defaults: seq<Rule>, n: Normalizer, observed: Text, decoded: Text)
    returns (name: Text)
    ensures IsNameOf(m, defaults, n, observed, decoded, name)
    ensures name == Canonicalize(m, defaults, n, observed, decoded)
  {
    CanonicalNameIsExact(m, defaults, n, observed, decoded, Canonicalize(m, defaults, n, observed, decoded));
    var terminal := n.terminal(observed);
    var raw := n.syntax(observed);
    var normalized := if observed == decoded then raw else n.syntax(decoded);
    var candidates := [n.trim(observed), terminal, raw, normalized];
    var slug := n.slug(terminal);
    if slug.Some? {
      candidates := candidates + [slug.value];
    }
    assert candidates == Candidates(n, observed, decoded);
    var target := MatchRules(m.rules, candidates);
    if target.Some? {
      return target.value;
    }
    if m.includeDefaults {
      target := MatchRules(defaults, candidates);
      if target.Some? {
        return target.value;
      }
    }
    name := normalized;
  }

  // ----- Freezing

  /** The complete rule list, as it enters the identity of a cached generation. */
  function Resolved(m: Mappings, defaults: seq<Rule>): Mappings {
    if m.includeDefaults then Mappings(false, m.rules + defaults) else m
  }

  lemma {:induction false} FirstHitAppended(a: seq<Rule>, b: seq<Rule>, candidates: seq<Text>)
    ensures FirstHit(a + b, candidates)
         == if FirstHit(a, candidates).Some? then FirstHit(a, candidates) else FirstHit(b, candidates)
  {
    if |a| == 0 {
      assert a + b == b;
    } else {
      assert (a + b)[1..] == a[1..] + b;
      FirstHitAppended(a[1..], b, candidates);
    }
  }

  /**
   * Freezing changes no name, whatever spellings the observation has and whatever rules a
   * later build bundles; freezing again changes nothing.
   */
  lemma ResolvedKeepsNames(
      m: Mappings, defaults: seq<Rule>, later: seq<Rule>, n: Normalizer, observed: Text, decoded: Text, name: Text)
    ensures IsNameOf(Resolved(m, defaults), later, n, observed, decoded, name)
        <==> IsNameOf(m, defaults, n, observed, decoded, name)
    ensures Resolved(Resolved(m, defaults), later) == Resolved(m, defaults)
  {
    CanonicalNameIsExact(Resolved(m, defaults), later, n, observed, decoded, name);
    CanonicalNameIsExact(m, defaults, n, observed, decoded, name);
    FirstHitAppended(m.rules, defaults, Candidates(n, observed, decoded));
  }
}
