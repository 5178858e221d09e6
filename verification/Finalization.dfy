/** Which usage records survive, under which model name they are priced, and how the rest is accounted for. */
module Finalization {
  import opened Options
  import opened Words
  import opened Sums
  import opened Ascending
  import opened InputHealth
  import opened DataHealth
  import opened ModelMappings

  datatype Tokens = Tokens(
    input: i64, output: i64, cacheRead: i64, cacheWrite: i64, cacheWrite1h: i64, reasoning: i64)
  {
    /** One-hour writes are part of the cache writes. */
    function Buckets(): seq<int> {
      [input, output, cacheRead, cacheWrite, reasoning]
    }
  }

  /** What the price table says about a record; refusals stay on the record, failures drop it. */
  datatype Estimate = Unpriced | Quoted(quote: nat) | Refused(error: nat) | Failed

  datatype Record = Record(
    rawModel: Text, model: Text, provider: Text, session: Text, timestamp: i64, messageCount: int,
    tokens: Tokens, price: Estimate, rest: nat)

  datatype Reason = MissingModel | MissingSession | MissingTimestamp | InvalidUsageRecord | PricingComputationFailed
  {
    function Key(): string {
      match this
      case MissingModel => "missing-model"
      case MissingSession => "missing-session"
      case MissingTimestamp => "missing-timestamp"
      case InvalidUsageRecord => "invalid-usage-record"
      case PricingComputationFailed => "pricing-computation-failed"
    }
  }

  datatype Verdict = Accept | Filter | Reject(reason: Reason)

  // ----- Token totals

  function CheckedAdd(a: int, b: int): Option<int> {
    if -I64_MAX - 1 <= a + b <= I64_MAX then Some(a + b) else None
  }

  /** Adding up from the left, giving up on the first overflow. */
  function CheckedTotal(buckets: seq<int>): Option<int> {
    if |buckets| == 0 then Some(0)
    else
      match CheckedTotal(buckets[..|buckets| - 1])
      case None => None
      case Some(total) => CheckedAdd(total, buckets[|buckets| - 1])
  }

  predicate AnyNegative(buckets: seq<int>) {
    exists i :: 0 <= i < |buckets| && buckets[i] < 0
  }

  predicate AnyPositive(buckets: seq<int>) {
    exists i :: 0 <= i < |buckets| && buckets[i] > 0
  }

  function PositiveTokenTotal(t: Tokens): Option<int> {
    if AnyNegative(t.Buckets()) || t.cacheWrite1h < 0 then None else CheckedTotal(t.Buckets())
  }

  lemma {:induction false} CheckedTotalIsSum(buckets: seq<int>)
    requires !AnyNegative(buckets)
    ensures Sum(buckets) >= 0
    ensures CheckedTotal(buckets) == if Sum(buckets) <= I64_MAX then Some(Sum(buckets)) else None
    ensures Sum(buckets) > 0 <==> AnyPositive(buckets)
  {
    var n := |buckets|;
    if n > 0 {
      var front := buckets[..n - 1];
      forall i | 0 <= i < |front| ensures front[i] == buckets[i] && buckets[i] >= 0 {}
      assert buckets[n - 1] >= 0;
      CheckedTotalIsSum(front);
      if AnyPositive(front) {
        var i :| 0 <= i < |front| && front[i] > 0;
        assert buckets[i] > 0;
      }
      if AnyPositive(buckets) && buckets[n - 1] == 0 {
        var i :| 0 <= i < n && buckets[i] > 0;
        assert front[i] > 0;
      }
    }
  }

  // ----- The verdict on one record

  predicate Blank(text: Text) {
    forall i :: 0 <= i < |text| ==> text[i] == 32 || 9 <= text[i] <= 13
  }

  /** `latest` is the last instant of the calendar in milliseconds. */
  function VerdictOn(r: Record, latest: int): Verdict {
    if Blank(r.model) then Reject(MissingModel)
    else if Blank(r.session) then Reject(MissingSession)
    else if r.timestamp <= 0 || r.timestamp > latest then Reject(MissingTimestamp)
    else if AnyNegative(r.tokens.Buckets()) || r.tokens.cacheWrite1h < 0
            || r.tokens.cacheWrite1h > r.tokens.cacheWrite || CheckedTotal(r.tokens.Buckets()).None? then
      Reject(InvalidUsageRecord)
    else if r.messageCount < 0 then Reject(InvalidUsageRecord)
    else if !AnyPositive(r.tokens.Buckets()) then Filter
    else Accept
  }

  /** A record that says who used what, and when. */
  predicate WellFormed(r: Record, latest: int) {
    && !Blank(r.model) && !Blank(r.session) && 0 < r.timestamp <= latest && r.messageCount >= 0
    && !AnyNegative(r.tokens.Buckets()) && 0 <= r.tokens.cacheWrite1h <= r.tokens.cacheWrite
    && Sum(r.tokens.Buckets()) <= I64_MAX
  }

  /**
   * Well-formed records with tokens are accepted, well-formed ones without are filtered, all
   * others rejected; an accepted record has a positive total that fits its word.
   */
  lemma VerdictIsExact(r: Record, latest: int)
    ensures VerdictOn(r, latest) == Accept <==> WellFormed(r, latest) && Sum(r.tokens.Buckets()) > 0
    ensures VerdictOn(r, latest) == Filter <==> WellFormed(r, latest) && Sum(r.tokens.Buckets()) == 0
    ensures VerdictOn(r, latest) == Accept ==> PositiveTokenTotal(r.tokens) == Some(Sum(r.tokens.Buckets()))
    ensures WellFormed(r, latest) ==>
              (VerdictOn(r, latest) == Filter <==> forall i :: 0 <= i < 5 ==> r.tokens.Buckets()[i] == 0)
  {
    var buckets := r.tokens.Buckets();
    if !AnyNegative(buckets) {
      CheckedTotalIsSum(buckets);
      if AnyPositive(buckets) {
        var i :| 0 <= i < |buckets| && buckets[i] > 0;
        assert buckets[i] != 0;
      } else {
        forall i | 0 <= i < |buckets| ensures buckets[i] == 0 {
          assert !(buckets[i] < 0) && !(buckets[i] > 0);
        }
      }
    }
  }

  /** A record that names its model and session and has a time is an invalid usage record if not well-formed. */
  lemma InvalidUsageIsReported(r: Record, latest: int)
    ensures VerdictOn(r, latest) == Reject(InvalidUsageRecord) <==>
              !Blank(r.model) && !Blank(r.session) && 0 < r.timestamp <= latest && !WellFormed(r, latest)
  {
    if !AnyNegative(r.tokens.Buckets()) {
      CheckedTotalIsSum(r.tokens.Buckets());
    }
  }

  /** A rejected record is reported under its first defect: model, session, time, then usage. */
  lemma FirstDefectIsReported(r: Record, latest: int)
    ensures VerdictOn(r, latest) == Reject(MissingModel) <==> Blank(r.model)
    ensures VerdictOn(r, latest) == Reject(MissingSession) <==> !Blank(r.model) && Blank(r.session)
    ensures VerdictOn(r, latest) == Reject(MissingTimestamp) <==>
              !Blank(r.model) && !Blank(r.session) && !(0 < r.timestamp <= latest)
    ensures VerdictOn(r, latest) == Reject(InvalidUsageRecord) <==>
              !Blank(r.model) && !Blank(r.session) && 0 < r.timestamp <= latest && !WellFormed(r, latest)
    ensures VerdictOn(r, latest) != Reject(PricingComputationFailed)
  {
    InvalidUsageIsReported(r, latest);
  }

  // ----- Order

  /** The indices of the flags that are set. */
  function Places(flags: seq<bool>): seq<nat> {
    if |flags| == 0 then []
    else Places(flags[..|flags| - 1]) + if flags[|flags| - 1] then [|flags| - 1] else []
  }

  predicate Increasing(at: seq<nat>) {
    forall i, j :: 0 <= i < j < |at| ==> at[i] < at[j]
  }

  lemma {:induction false} PlacesInOrder(flags: seq<bool>)
    ensures Increasing(Places(flags))
    ensures forall j: nat :: j in Places(flags) <==> j < |flags| && flags[j]
  {
    var n := |flags|;
    if n > 0 {
      PlacesInOrder(flags[..n - 1]);
      var front := Places(flags[..n - 1]);
      forall i | 0 <= i < |front| ensures front[i] < n - 1 {
        assert front[i] in front;
      }
    }
  }

  // ----- First pass: eligibility

  function Kept(messages: seq<Record>, latest: int): seq<Record> {
    if |messages| == 0 then []
    else
      var last := messages[|messages| - 1];
      Kept(messages[..|messages| - 1], latest) + if VerdictOn(last, latest).Accept? then [last] else []
  }

  function Refusals(messages: seq<Record>, latest: int): seq<string> {
    if |messages| == 0 then []
    else
      var verdict := VerdictOn(messages[|messages| - 1], latest);
      Refusals(messages[..|messages| - 1], latest) + if verdict.Reject? then [verdict.reason.Key()] else []
  }

  function Empties(messages: seq<Record>, latest: int): nat {
    if |messages| == 0 then 0
    else
      Empties(messages[..|messages| - 1], latest)
      + if VerdictOn(messages[|messages| - 1], latest).Filter? then 1 else 0
  }

  function Accepted(messages: seq<Record>, latest: int): seq<bool> {
    seq(|messages|, i requires 0 <= i < |messages| => VerdictOn(messages[i], latest).Accept?)
  }

  /** The kept records are the messages at these places, unchanged. */
  ghost predicate KeepsAt(messages: seq<Record>, kept: seq<Record>, at: seq<nat>) {
    |kept| == |at| && forall i :: 0 <= i < |at| ==> at[i] < |messages| && kept[i] == messages[at[i]]
  }

  ghost predicate KeepsAccepted(messages: seq<Record>, latest: int, kept: seq<Record>) {
    KeepsAt(messages, kept, Places(Accepted(messages, latest)))
  }

  lemma {:induction false} KeptAtPlaces(messages: seq<Record>, latest: int)
    ensures KeepsAccepted(messages, latest, Kept(messages, latest))
  {
    var n := |messages|;
    if n > 0 {
      KeptAtPlaces(messages[..n - 1], latest);
      assert Accepted(messages, latest)[..n - 1] == Accepted(messages[..n - 1], latest);
      KeptStep(messages, latest);
    }
  }

  /** The kept records stand at ascending places of the input, and those are exactly the accepted ones. */
  lemma {:induction false} KeptInOrder(messages: seq<Record>, latest: int)
    ensures exists at: seq<nat> ::
              && KeepsAt(messages, Kept(messages, latest), at) && Increasing(at)
              && forall j: nat :: j in at <==> j < |messages| && VerdictOn(messages[j], latest).Accept?
  {
    var at := Places(Accepted(messages, latest));
    KeptAtPlaces(messages, latest);
    PlacesInOrder(Accepted(messages, latest));
    assert KeepsAt(messages, Kept(messages, latest), at) && Increasing(at);
  }

  lemma KeptStep(messages: seq<Record>, latest: int)
    requires |messages| > 0
    requires var front := messages[..|messages| - 1];
             KeepsAccepted(front, latest, Kept(front, latest))
             && Accepted(messages, latest)[..|messages| - 1] == Accepted(front, latest)
    ensures KeepsAccepted(messages, latest, Kept(messages, latest))
  {
    var n := |messages|;
    var front := Places(Accepted(messages[..n - 1], latest));
    var at := Places(Accepted(messages, latest));
    assert at == front + if VerdictOn(messages[n - 1], latest).Accept? then [n - 1] else [];
    forall i | 0 <= i < |front| ensures at[i] == front[i] && messages[..n - 1][front[i]] == messages[front[i]] {}
  }

  /** Every record is kept, filtered as empty or rejected. */
  lemma {:induction false} EveryRecordIsAccountedFor(messages: seq<Record>, latest: int)
    ensures |Kept(messages, latest)| + Empties(messages, latest) + |Refusals(messages, latest)| == |messages|
  {
    if |messages| > 0 {
      EveryRecordIsAccountedFor(messages[..|messages| - 1], latest);
    }
  }

  // ----- Counting rejections

  /** The counter after recording the keys one by one. */
  function Counted(keys: seq<string>): Rejections {
    if |keys| == 0 then map[] else AddReason(Counted(keys[..|keys| - 1]), keys[|keys| - 1], 1)
  }

  function Occurrences(keys: seq<string>, key: string): nat {
    if |keys| == 0 then 0
    else Occurrences(keys[..|keys| - 1], key) + if keys[|keys| - 1] == key then 1 else 0
  }

  lemma CountedGrows(keys: seq<string>, key: string)
    ensures Counted(keys + [key]) == AddReason(Counted(keys), key, 1)
  {
    assert (keys + [key])[..|keys|] == keys;
  }

  lemma {:induction false} CountedIsOccurrences(keys: seq<string>, key: string)
    ensures key in Counted(keys) <==> Occurrences(keys, key) > 0
    ensures key in Counted(keys) ==> Counted(keys)[key] == Sat(Occurrences(keys, key))
  {
    if |keys| > 0 {
      CountedIsOccurrences(keys[..|keys| - 1], key);
    }
  }

  function OccurrencesOf(keys: seq<string>, among: seq<string>): (r: seq<nat>)
    ensures |r| == |among|
  {
    seq(|among|, i requires 0 <= i < |among| => Occurrences(keys, among[i]))
  }

  /** Over distinct keys that cover all, the occurrences add up to the length. */
  lemma {:induction false} OccurrencesAddUp(keys: seq<string>, among: seq<string>)
    requires forall i, j :: 0 <= i < j < |among| ==> among[i] != among[j]
    requires forall k :: k in keys ==> k in among
    ensures Sum(OccurrencesOf(keys, among)) == |keys|
  {
    var n := |keys|;
    var all := OccurrencesOf(keys, among);
    if n == 0 {
      SumBounds(all, 0, 0);
    } else {
      var front := OccurrencesOf(keys[..n - 1], among);
      OccurrencesAddUp(keys[..n - 1], among);
      assert keys[n - 1] in among;
      var i :| 0 <= i < |among| && among[i] == keys[n - 1];
      SumUpdate(front, i, front[i] + 1);
      assert all == front[i := front[i] + 1];
    }
  }

  /** The counter's total is the number of recorded rejections, up to the word size. */
  lemma CountedTotal(keys: seq<string>)
    ensures Total(Counted(keys)) == Sat(|keys|)
  {
    var counted := Counted(keys);
    var among := Reasons(counted);
    ReasonsAreDistinct(counted);
    forall k ensures k in among <==> Occurrences(keys, k) > 0 {
      CountedIsOccurrences(keys, k);
    }
    forall k | k in keys ensures k in among {
      OccursInside(keys, k);
    }
    var exact := OccurrencesOf(keys, among);
    OccurrencesAddUp(keys, among);
    forall i | 0 <= i < |among| ensures Counts(counted, among)[i] == Sat(exact[i]) {
      CountedIsOccurrences(keys, among[i]);
    }
    SatSumIsSat(Counts(counted, among), exact);
  }

  lemma {:induction false} OccursInside(keys: seq<string>, k: string)
    requires k in keys
    ensures Occurrences(keys, k) > 0
  {
    if keys[|keys| - 1] != k {
      OccursInside(keys[..|keys| - 1], k);
    }
  }

  lemma ReasonsAreDistinct(r: Rejections)
    ensures forall i, j :: 0 <= i < j < |Reasons(r)| ==> Reasons(r)[i] != Reasons(r)[j]
  {
    StringCodeInjective();
    InOrderIsDistinct(r.Keys, StringCode);
  }

  // ----- Second pass: naming and pricing

  /** The tables the second pass looks things up in. */
  datatype Tables = Tables(
    mappings: Mappings,
    bundled: seq<Rule>,
    normalizer: Normalizer,
    providerOverride: (Text, Text) -> Option<Text>,
    finalProvider: (Text, Text) -> Text,
    estimate: Record -> Estimate)

  /** The model name of an observation, without any memory of earlier ones. */
  function NameOf(raw: Text, decoded: Text, t: Tables): Text {
    Canonicalize(t.mappings, t.bundled, t.normalizer, raw, decoded)
  }

  function Provider(model: Text, provider: Text, t: Tables): Text {
    var refreshed := match t.providerOverride(model, provider) case Some(p) => p case None => provider;
    t.finalProvider(refreshed, model)
  }

  function Named(r: Record, t: Tables): Record {
    var model := NameOf(r.rawModel, r.model, t);
    r.(model := model, provider := Provider(model, r.provider, t), price := Unpriced)
  }

  function PriceOf(r: Record, t: Tables): Estimate {
    t.estimate(Named(r, t))
  }

  function Priced(messages: seq<Record>, t: Tables): seq<Record> {
    if |messages| == 0 then []
    else
      var last := messages[|messages| - 1];
      Priced(messages[..|messages| - 1], t)
      + if PriceOf(last, t).Failed? then [] else [Named(last, t).(price := PriceOf(last, t))]
  }

  function Failures(messages: seq<Record>, t: Tables): seq<string> {
    if |messages| == 0 then []
    else
      Failures(messages[..|messages| - 1], t)
      + if PriceOf(messages[|messages| - 1], t).Failed? then [PricingComputationFailed.Key()] else []
  }

  /** The record under the name of its observation and the provider that goes with it, not yet priced. */
  ghost predicate IsNamed(a: Record, b: Record, t: Tables) {
    && IsNameOf(t.mappings, t.bundled, t.normalizer, a.rawModel, a.model, b.model)
    && (match t.providerOverride(b.model, a.provider)
        case Some(provider) => b.provider == t.finalProvider(provider, b.model)
        case None => b.provider == t.finalProvider(a.provider, b.model))
    && b == a.(model := b.model, provider := b.provider, price := Unpriced)
  }

  lemma NamedIsExact(a: Record, b: Record, t: Tables)
    ensures IsNamed(a, b, t) <==> b == Named(a, t)
  {
    CanonicalNameIsExact(t.mappings, t.bundled, t.normalizer, a.rawModel, a.model, b.model);
  }

  /** The record named and priced, and nothing else changed. */
  ghost predicate OnlyNamed(a: Record, b: Record, t: Tables) {
    exists named :: IsNamed(a, named, t) && b == named.(price := t.estimate(named)) && !b.price.Failed?
  }

  /** No price can be computed for the record once it is named. */
  ghost predicate FailsPricing(a: Record, t: Tables) {
    exists named :: IsNamed(a, named, t) && t.estimate(named).Failed?
  }

  lemma PricingIsExact(a: Record, t: Tables)
    ensures FailsPricing(a, t) <==> PriceOf(a, t).Failed?
    ensures !FailsPricing(a, t) ==> OnlyNamed(a, Named(a, t).(price := PriceOf(a, t)), t)
  {
    NamedIsExact(a, Named(a, t), t);
    if named :| IsNamed(a, named, t) && t.estimate(named).Failed? {
      NamedIsExact(a, named, t);
    }
  }

  function Priceable(messages: seq<Record>, t: Tables): seq<bool> {
    seq(|messages|, i requires 0 <= i < |messages| => !PriceOf(messages[i], t).Failed?)
  }

  /** The priced records are the messages at these places, each only named and priced. */
  ghost predicate PricesAt(messages: seq<Record>, t: Tables, priced: seq<Record>, at: seq<nat>) {
    |priced| == |at| && forall i :: 0 <= i < |at| ==> at[i] < |messages| && OnlyNamed(messages[at[i]], priced[i], t)
  }

  ghost predicate KeepsPriceable(messages: seq<Record>, t: Tables, priced: seq<Record>) {
    PricesAt(messages, t, priced, Places(Priceable(messages, t)))
  }

  lemma {:induction false} PricedAtPlaces(messages: seq<Record>, t: Tables)
    ensures KeepsPriceable(messages, t, Priced(messages, t))
  {
    var n := |messages|;
    if n > 0 {
      PricedAtPlaces(messages[..n - 1], t);
      assert Priceable(messages, t)[..n - 1] == Priceable(messages[..n - 1], t);
      PricedStep(messages, t);
    }
  }

  /** The priced records stand at ascending places of the input, exactly those whose pricing does not fail. */
  lemma {:induction false} PricedInOrder(messages: seq<Record>, t: Tables)
    ensures exists at: seq<nat> ::
              && PricesAt(messages, t, Priced(messages, t), at) && Increasing(at)
              && forall j: nat :: j in at <==> j < |messages| && !FailsPricing(messages[j], t)
  {
    var at := Places(Priceable(messages, t));
    forall j: nat | j < |messages| ensures FailsPricing(messages[j], t) <==> PriceOf(messages[j], t).Failed? {
      PricingIsExact(messages[j], t);
    }
    PricedAtPlaces(messages, t);
    PlacesInOrder(Priceable(messages, t));
    assert PricesAt(messages, t, Priced(messages, t), at) && Increasing(at);
  }

  lemma PricedStep(messages: seq<Record>, t: Tables)
    requires |messages| > 0
    requires var front := messages[..|messages| - 1];
             KeepsPriceable(front, t, Priced(front, t))
             && Priceable(messages, t)[..|messages| - 1] == Priceable(front, t)
    ensures KeepsPriceable(messages, t, Priced(messages, t))
  {
    var n := |messages|;
    var front := Places(Priceable(messages[..n - 1], t));
    var at := Places(Priceable(messages, t));
    PricingIsExact(messages[n - 1], t);
    assert at == front + if !PriceOf(messages[n - 1], t).Failed? then [n - 1] else [];
    forall i | 0 <= i < |front| ensures at[i] == front[i] && messages[..n - 1][front[i]] == messages[front[i]] {}
  }

  lemma {:induction false} EveryPricingIsAccountedFor(messages: seq<Record>, t: Tables)
    ensures |Priced(messages, t)| + |Failures(messages, t)| == |messages|
  {
    if |messages| > 0 {
      EveryPricingIsAccountedFor(messages[..|messages| - 1], t);
    }
  }

  /** Freezing the name rules changes no priced record, whatever rules are bundled later. */
  lemma {:induction false} FrozenRulesPriceAlike(messages: seq<Record>, t: Tables, later: seq<Rule>)
    ensures var frozen := t.(mappings := Resolved(t.mappings, t.bundled), bundled := later);
            Priced(messages, frozen) == Priced(messages, t) && Failures(messages, frozen) == Failures(messages, t)
  {
    if |messages| > 0 {
      var last := messages[|messages| - 1];
      FrozenRulesPriceAlike(messages[..|messages| - 1], t, later);
      var name := NameOf(last.rawModel, last.model, t);
      ResolvedKeepsNames(t.mappings, t.bundled, later, t.normalizer, last.rawModel, last.model, name);
      CanonicalNameIsExact(t.mappings, t.bundled, t.normalizer, last.rawModel, last.model, name);
      CanonicalNameIsExact(
        Resolved(t.mappings, t.bundled), later, t.normalizer, last.rawModel, last.model, name);
    }
  }

  // ----- What the counters report

  /** The defect a record is rejected for: the first of model, session, time and usage. */
  ghost predicate HasDefect(r: Record, latest: int, reason: Reason) {
    match reason
    case MissingModel => Blank(r.model)
    case MissingSession => !Blank(r.model) && Blank(r.session)
    case MissingTimestamp => !Blank(r.model) && !Blank(r.session) && !(0 < r.timestamp <= latest)
    case InvalidUsageRecord =>
      !Blank(r.model) && !Blank(r.session) && 0 < r.timestamp <= latest && !WellFormed(r, latest)
    case PricingComputationFailed => false
  }

  ghost function DefectsAt(messages: seq<Record>, latest: int, reason: Reason): set<nat> {
    set i: nat | i < |messages| && HasDefect(messages[i], latest, reason)
  }

  /** The stable key under which a reason is counted. */
  predicate IsKeyOf(key: string, reason: Reason) {
    || (reason == MissingModel && key == "missing-model")
    || (reason == MissingSession && key == "missing-session")
    || (reason == MissingTimestamp && key == "missing-timestamp")
    || (reason == InvalidUsageRecord && key == "invalid-usage-record")
    || (reason == PricingComputationFailed && key == "pricing-computation-failed")
  }

  lemma KeysDiffer(reason: Reason, other: Reason, key: string)
    requires IsKeyOf(key, reason)
    ensures other.Key() == key <==> other == reason
  {
  }

  lemma DefectsGrow(front: seq<Record>, last: Record, latest: int, reason: Reason)
    ensures |DefectsAt(front + [last], latest, reason)|
         == |DefectsAt(front, latest, reason)| + if HasDefect(last, latest, reason) then 1 else 0
  {
    var before, after := DefectsAt(front, latest, reason), DefectsAt(front + [last], latest, reason);
    OneMoreIndex(before, after, |front|, HasDefect(last, latest, reason));
  }

  lemma {:induction false} RefusalsOccur(messages: seq<Record>, latest: int, reason: Reason, key: string)
    requires IsKeyOf(key, reason)
    ensures Occurrences(Refusals(messages, latest), key) == |DefectsAt(messages, latest, reason)|
  {
    if |messages| == 0 {
      assert DefectsAt(messages, latest, reason) == {};
    } else {
      var front, last := messages[..|messages| - 1], messages[|messages| - 1];
      RefusalsOccur(front, latest, reason, key);
      RefusalCounts(front, last, latest, reason, key);
      DefectsGrow(front, last, latest, reason);
      assert messages == front + [last];
    }
  }

  lemma RefusalCounts(front: seq<Record>, last: Record, latest: int, reason: Reason, key: string)
    requires IsKeyOf(key, reason)
    ensures Occurrences(Refusals(front + [last], latest), key)
         == Occurrences(Refusals(front, latest), key) + if HasDefect(last, latest, reason) then 1 else 0
  {
    FirstDefectIsReported(last, latest);
    assert (front + [last])[..|front|] == front;
    var verdict := VerdictOn(last, latest);
    if verdict.Reject? {
      KeysDiffer(reason, verdict.reason, key);
      assert (Refusals(front, latest) + [verdict.reason.Key()])[..|Refusals(front, latest)|] == Refusals(front, latest);
    } else {
      assert Refusals(front + [last], latest) == Refusals(front, latest);
    }
  }

  /** Under each key the first pass counts exactly the records with that first defect, up to the word size. */
  lemma RejectionsByReason(messages: seq<Record>, latest: int, reason: Reason, key: string)
    requires IsKeyOf(key, reason)
    ensures var counted, n := Counted(Refusals(messages, latest)), |DefectsAt(messages, latest, reason)|;
      (key in counted <==> n > 0) && (n > 0 ==> counted[key] == Sat(n))
  {
    RefusalsOccur(messages, latest, reason, key);
    CountedIsOccurrences(Refusals(messages, latest), key);
  }

  ghost function UnpriceableAt(messages: seq<Record>, t: Tables): set<nat> {
    set i: nat | i < |messages| && FailsPricing(messages[i], t)
  }

  lemma UnpriceableGrow(front: seq<Record>, last: Record, t: Tables)
    ensures |UnpriceableAt(front + [last], t)| == |UnpriceableAt(front, t)| + if FailsPricing(last, t) then 1 else 0
  {
    OneMoreIndex(UnpriceableAt(front, t), UnpriceableAt(front + [last], t), |front|, FailsPricing(last, t));
  }

  /** The second pass counts exactly the records whose pricing fails, under one key. */
  lemma {:induction false} FailuresByReason(messages: seq<Record>, t: Tables)
    ensures |Failures(messages, t)| == |UnpriceableAt(messages, t)|
    ensures forall k :: k in Failures(messages, t) ==> k == "pricing-computation-failed"
  {
    if |messages| == 0 {
      assert UnpriceableAt(messages, t) == {};
    } else {
      var front, last := messages[..|messages| - 1], messages[|messages| - 1];
      FailuresByReason(front, t);
      PricingIsExact(last, t);
      UnpriceableGrow(front, last, t);
      assert messages == front + [last];
    }
  }

  // ----- Both passes

  /**
   * What comes out of both passes: the input less the empty and the rejected records, whose number the two
   * counters report up to the word size; every record is well-formed, with a positive total.
   */
  lemma Finalized(messages: seq<Record>, latest: int, t: Tables)
    ensures var kept := Kept(messages, latest);
            var refused := Refusals(messages, latest);
            var failed := Failures(kept, t);
            && |Priced(kept, t)| + Empties(messages, latest) + |refused| + |failed| == |messages|
            && Total(Counted(refused)) == Sat(|refused|) && Total(Counted(failed)) == Sat(|failed|)
    ensures forall m :: m in Priced(Kept(messages, latest), t) ==> Positive(m, latest)
  {
    var kept := Kept(messages, latest);
    EveryRecordIsAccountedFor(messages, latest);
    EveryPricingIsAccountedFor(kept, t);
    CountedTotal(Refusals(messages, latest));
    CountedTotal(Failures(kept, t));
    KeptArePositive(messages, latest);
    PricedArePositive(kept, latest, t);
  }

  ghost predicate Positive(m: Record, latest: int) {
    && !Blank(m.session) && 0 < m.timestamp <= latest && m.messageCount >= 0
    && !AnyNegative(m.tokens.Buckets()) && 0 <= m.tokens.cacheWrite1h <= m.tokens.cacheWrite
    && 0 < Sum(m.tokens.Buckets()) <= I64_MAX
  }

  lemma {:induction false} KeptArePositive(messages: seq<Record>, latest: int)
    ensures forall m :: m in Kept(messages, latest) ==> Positive(m, latest)
  {
    if |messages| > 0 {
      KeptArePositive(messages[..|messages| - 1], latest);
      VerdictIsExact(messages[|messages| - 1], latest);
    }
  }

  lemma {:induction false} PricedArePositive(messages: seq<Record>, latest: int, t: Tables)
    requires forall m :: m in messages ==> Positive(m, latest)
    ensures forall m :: m in Priced(messages, t) ==> Positive(m, latest)
  {
    if |messages| > 0 {
      PricedArePositive(messages[..|messages| - 1], latest, t);
      assert Positive(messages[|messages| - 1], latest);
    }
  }

  // ----- The passes as they run

  /** Every remembered name is the one a direct lookup would give. */
  ghost predicate MemoIsSound(memo: map<(Text, Text), Text>, t: Tables) {
    forall key :: key in memo ==> memo[key] == NameOf(key.0, key.1, t)
  }

  class MessageBatch {
    var messages: seq<Record>

    constructor (messages: seq<Record>)
      ensures this.messages == messages
    {
      this.messages := messages;
    }

    method RetainEligible(latest: int) returns (rejections: Rejections)
      modifies this
      ensures messages == Kept(old(messages), latest)
      ensures rejections == Counted(Refusals(old(messages), latest))
    {
      var source := messages;
      var counter := new RejectionCounter();
      var kept: seq<Record> := [];
      for i := 0 to |source|
        invariant kept == Kept(source[..i], latest)
        invariant counter.counts == Counted(Refusals(source[..i], latest))
      {
        RetainStep(source, i, latest);
        var verdict := VerdictOn(source[i], latest);
        if verdict.Accept? {
          kept := kept + [source[i]];
        } else if verdict.Reject? {
          counter.RecordKey(verdict.reason.Key());
        }
      }
      assert source[..|source|] == source;
      messages := kept;
      rejections := counter.counts;
    }

    /** Names each pair of spellings once and remembers the answer. */
    method PriceEligible(t: Tables) returns (rejections: Rejections)
      modifies this
      ensures messages == Priced(old(messages), t)
      ensures rejections == Counted(Failures(old(messages), t))
    {
      var source := messages;
      var memo: map<(Text, Text), Text> := map[];
      var counter := new RejectionCounter();
      var kept: seq<Record> := [];
      for i := 0 to |source|
        invariant MemoIsSound(memo, t)
        invariant kept == Priced(source[..i], t)
        invariant counter.counts == Counted(Failures(source[..i], t))
      {
        PriceStep(source, i, t);
        var message;
        message, memo := PriceOnce(source[i], memo, t);
        if message.price.Failed? {
          counter.RecordKey(PricingComputationFailed.Key());
        } else {
          kept := kept + [message];
        }
      }
      assert source[..|source|] == source;
      messages := kept;
      rejections := counter.counts;
    }
  }

  lemma RetainStep(messages: seq<Record>, i: nat, latest: int)
    requires i < |messages|
    ensures var verdict := VerdictOn(messages[i], latest);
            && Kept(messages[..i + 1], latest)
                 == Kept(messages[..i], latest) + (if verdict.Accept? then [messages[i]] else [])
            && Counted(Refusals(messages[..i + 1], latest))
                 == if verdict.Reject? then AddReason(Counted(Refusals(messages[..i], latest)), verdict.reason.Key(), 1)
                    else Counted(Refusals(messages[..i], latest))
  {
    assert messages[..i + 1][..i] == messages[..i];
    var verdict := VerdictOn(messages[i], latest);
    if verdict.Reject? {
      CountedGrows(Refusals(messages[..i], latest), verdict.reason.Key());
    } else {
      assert Refusals(messages[..i + 1], latest) == Refusals(messages[..i], latest);
    }
  }

  lemma PriceStep(messages: seq<Record>, i: nat, t: Tables)
    requires i < |messages|
    ensures var price := PriceOf(messages[i], t);
            && Priced(messages[..i + 1], t)
                 == Priced(messages[..i], t) + (if price.Failed? then [] else [Named(messages[i], t).(price := price)])
            && Counted(Failures(messages[..i + 1], t))
                 == if price.Failed?
                    then AddReason(Counted(Failures(messages[..i], t)), PricingComputationFailed.Key(), 1)
                    else Counted(Failures(messages[..i], t))
  {
    assert messages[..i + 1][..i] == messages[..i];
    if PriceOf(messages[i], t).Failed? {
      CountedGrows(Failures(messages[..i], t), PricingComputationFailed.Key());
    } else {
      assert Failures(messages[..i + 1], t) == Failures(messages[..i], t);
    }
  }

  method PriceOnce(message: Record, memo: map<(Text, Text), Text>, t: Tables)
    returns (priced: Record, memo': map<(Text, Text), Text>)
    requires MemoIsSound(memo, t)
    ensures priced == Named(message, t).(price := PriceOf(message, t))
    ensures MemoIsSound(memo', t)
  {
    var name;
    name, memo' := NameOnce(message.rawModel, message.model, memo, t);
    priced := message.(model := name, provider := Provider(name, message.provider, t), price := Unpriced);
    priced := priced.(price := t.estimate(priced));
  }

  method NameOnce(raw: Text, decoded: Text, memo: map<(Text, Text), Text>, t: Tables)
    returns (name: Text, memo': map<(Text, Text), Text>)
    requires MemoIsSound(memo, t)
    ensures name == NameOf(raw, decoded, t)
    ensures IsNameOf(t.mappings, t.bundled, t.normalizer, raw, decoded, name)
    ensures MemoIsSound(memo', t) && memo'.Keys == memo.Keys + {(raw, decoded)}
  {
    var key := (raw, decoded);
    if key in memo {
      CanonicalNameIsExact(t.mappings, t.bundled, t.normalizer, raw, decoded, memo[key]);
      return memo[key], memo;
    }
    name := CanonicalizeObservation(t.mappings, t.bundled, t.normalizer, raw, decoded);
    memo' := memo[key := name];
  }
}
