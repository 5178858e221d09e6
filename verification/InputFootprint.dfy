/** Bytes of local input per client, whose total always fits its word, and the inventory that fills it. */
module InputFootprint {
  import opened Options
  import opened Words
  import opened Sums
  import opened Ascending
  import opened InputHealth

  type Footprint = map<ClientId, nat>

  datatype Overflow = Overflow

  function ClientCode(c: ClientId): seq<nat> {
    [c]
  }

  lemma ClientCodeInjective()
    ensures Injective(ClientCode)
  {
    forall x: ClientId, y: ClientId | ClientCode(x) == ClientCode(y) ensures x == y {
      assert ClientCode(x)[0] == ClientCode(y)[0];
    }
  }

  function BytesFor(m: Footprint, c: ClientId): nat {
    if c in m then m[c] else 0
  }

  /** The bytes in client order. */
  function Values(m: Footprint): (r: seq<nat>)
    ensures |r| == |m|
  {
    ClientCodeInjective();
    var clients := InOrder(m.Keys, ClientCode);
    seq(|clients|, i requires 0 <= i < |clients| => BytesFor(m, clients[i]))
  }

  // ----- The exact total

  /** The bytes of the given clients, in unbounded arithmetic. */
  ghost function SumOver(clients: set<ClientId>, m: Footprint): nat
    decreases |clients|
  {
    if clients == {} then 0
    else
      ClientCodeInjective();
      var c := Least(clients, ClientCode);
      BytesFor(m, c) + SumOver(clients - {c}, m)
  }

  ghost function TotalOf(m: Footprint): nat {
    SumOver(m.Keys, m)
  }

  lemma {:induction false} SumWithout(clients: set<ClientId>, m: Footprint, c: ClientId)
    requires c in clients
    ensures SumOver(clients, m) == BytesFor(m, c) + SumOver(clients - {c}, m)
    decreases |clients|
  {
    ClientCodeInjective();
    var least := Least(clients, ClientCode);
    if c != least {
      SumWithout(clients - {least}, m, c);
      LeastIsUnique(clients - {c}, ClientCode, least, Least(clients - {c}, ClientCode));
      assert clients - {least} - {c} == clients - {c} - {least};
    }
  }

  lemma {:induction false} SumElsewhere(clients: set<ClientId>, m: Footprint, n: Footprint)
    requires forall c :: c in clients ==> BytesFor(m, c) == BytesFor(n, c)
    ensures SumOver(clients, m) == SumOver(clients, n)
    decreases |clients|
  {
    if clients != {} {
      ClientCodeInjective();
      SumElsewhere(clients - {Least(clients, ClientCode)}, m, n);
    }
  }

  /** Replacing one client's bytes changes the total by the difference. */
  lemma TotalReplaced(m: Footprint, c: ClientId, bytes: nat)
    ensures BytesFor(m, c) <= TotalOf(m)
    ensures TotalOf(m[c := bytes]) == TotalOf(m) - BytesFor(m, c) + bytes
  {
    var n := m[c := bytes];
    var others := m.Keys - {c};
    assert n.Keys - {c} == others;
    SumWithout(n.Keys, n, c);
    SumElsewhere(others, m, n);
    if c in m {
      SumWithout(m.Keys, m, c);
    } else {
      assert m.Keys == others;
    }
  }

  lemma {:induction false} SumInOrder(clients: set<ClientId>, order: seq<ClientId>, m: Footprint, values: seq<nat>)
    requires Injective(ClientCode) && order == InOrder(clients, ClientCode)
    requires |values| == |order| && forall i :: 0 <= i < |order| ==> values[i] == BytesFor(m, order[i])
    ensures Sum(values) == SumOver(clients, m)
    decreases |clients|
  {
    if clients != {} {
      var c := Least(clients, ClientCode);
      assert order == [c] + InOrder(clients - {c}, ClientCode);
      SumInOrder(clients - {c}, order[1..], m, values[1..]);
      HeadAndTail(values);
    }
  }

  lemma HeadAndTail(s: seq<nat>)
    requires |s| > 0
    ensures Sum(s) == s[0] + Sum(s[1..])
  {
    SumAppend([s[0]], s[1..]);
    assert s == [s[0]] + s[1..];
    assert [s[0]][..0] == [];
  }

  /** Adding up in client order, giving up on overflow, succeeds exactly when the exact total fits. */
  lemma CheckedTotal(m: Footprint)
    ensures CheckedSum(Values(m)) == if TotalOf(m) <= U64_MAX then Some(TotalOf(m)) else None
  {
    ClientCodeInjective();
    SumInOrder(m.Keys, InOrder(m.Keys, ClientCode), m, Values(m));
    CheckedSumIsSum(Values(m));
  }

  // ----- Updates

  datatype Update = Set(client: ClientId, bytes: nat) | Add(client: ClientId, bytes: nat) {
    predicate IsWord() {
      bytes <= U64_MAX
    }
  }

  /** The bytes an update wants its client to have. */
  function Wanted(m: Footprint, u: Update): nat {
    if u.Set? then u.bytes else BytesFor(m, u.client) + u.bytes
  }

  /** An update takes effect if the new total fits, and otherwise has none. */
  ghost function Updated(m: Footprint, u: Update): Footprint {
    var n := m[u.client := Wanted(m, u)];
    if TotalOf(n) <= U64_MAX then n else m
  }

  ghost function Run(m: Footprint, updates: seq<Update>): Footprint {
    if |updates| == 0 then m else Updated(Run(m, updates[..|updates| - 1]), updates[|updates| - 1])
  }

  /** Over any run the total fits, and the updates that had no effect may as well be left out. */
  lemma {:induction false} RunFits(m: Footprint, updates: seq<Update>)
    requires TotalOf(m) <= U64_MAX
    ensures TotalOf(Run(m, updates)) <= U64_MAX
    ensures Run(m, updates) == Overwritten(m, Effective(m, updates))
  {
    if |updates| > 0 {
      var front := updates[..|updates| - 1];
      RunFits(m, front);
      var u := updates[|updates| - 1];
      OverwrittenGrows(m, Effective(m, front), (u.client, Wanted(Run(m, front), u)));
      if TotalOf(Run(m, front)[u.client := Wanted(Run(m, front), u)]) > U64_MAX {
        assert Effective(m, updates) == Effective(m, front);
      }
    }
  }

  lemma OverwrittenGrows(m: Footprint, entries: seq<(ClientId, nat)>, last: (ClientId, nat))
    ensures Overwritten(m, entries + [last]) == Overwritten(m, entries)[last.0 := last.1]
  {
    assert (entries + [last])[..|entries|] == entries;
  }

  /** The updates of a run that took effect, each with the bytes it set. */
  ghost function Effective(m: Footprint, updates: seq<Update>): seq<(ClientId, nat)> {
    if |updates| == 0 then []
    else
      var before := Run(m, updates[..|updates| - 1]);
      var u := updates[|updates| - 1];
      Effective(m, updates[..|updates| - 1])
      + if TotalOf(before[u.client := Wanted(before, u)]) <= U64_MAX then [(u.client, Wanted(before, u))] else []
  }

  /** The entries written over `m` in turn, without any limit. */
  function Overwritten(m: Footprint, entries: seq<(ClientId, nat)>): Footprint {
    if |entries| == 0 then m
    else Overwritten(m, entries[..|entries| - 1])[entries[|entries| - 1].0 := entries[|entries| - 1].1]
  }

  function ZeroFor(clients: seq<ClientId>): Footprint {
    map c | c in clients :: 0
  }

  lemma {:induction false} ZeroTotal(clients: set<ClientId>, m: Footprint)
    requires forall c :: c in clients ==> BytesFor(m, c) == 0
    ensures SumOver(clients, m) == 0
    decreases |clients|
  {
    if clients != {} {
      ClientCodeInjective();
      ZeroTotal(clients - {Least(clients, ClientCode)}, m);
    }
  }

  class FootprintIndex {
    var bytes: Footprint

    ghost predicate Valid()
      reads this
    {
      TotalOf(bytes) <= U64_MAX
    }

    constructor (clients: seq<ClientId>)
      ensures Valid()
      ensures bytes == ZeroFor(clients)
    {
      bytes := ZeroFor(clients);
      new;
      ZeroTotal(bytes.Keys, bytes);
    }

    method TotalBytes() returns (r: Result<nat, Overflow>)
      ensures r == if TotalOf(bytes) <= U64_MAX then Ok(TotalOf(bytes)) else Err(Overflow)
    {
      CheckedTotal(bytes);
      var sum := CheckedSum(Values(bytes));
      match sum
      case Some(total) => r := Ok(total);
      case None => r := Err(Overflow);
    }

    /** Neither the total nor the remainder after taking the old bytes out can fail here. */
    method SetBytes(client: ClientId, n: nat) returns (r: Result<(), Overflow>)
      requires Valid() && n <= U64_MAX
      modifies this
      ensures Valid()
      ensures bytes == Updated(old(bytes), Set(client, n))
      ensures r.Ok? <==> TotalOf(old(bytes)[client := n]) <= U64_MAX
    {
      TotalReplaced(bytes, client, n);
      var previous := BytesFor(bytes, client);
      var sum := TotalBytes();
      assert sum.Ok? && previous <= sum.value;
      var remaining := sum.value - previous;
      if remaining + n > U64_MAX {
        return Err(Overflow);
      }
      bytes := bytes[client := n];
      r := Ok(());
    }

    method AddBytes(client: ClientId, n: nat) returns (r: Result<(), Overflow>)
      requires Valid() && n <= U64_MAX
      modifies this
      ensures Valid()
      ensures bytes == Updated(old(bytes), Add(client, n))
      ensures r.Ok? <==> TotalOf(old(bytes)) + n <= U64_MAX
    {
      var total := BytesFor(bytes, client) + n;
      TotalReplaced(bytes, client, total);
      if total > U64_MAX {
        return Err(Overflow);
      }
      r := SetBytes(client, total);
    }
  }

  // ----- Building from entries

  ghost predicate EveryPrefixFits(entries: seq<(ClientId, nat)>) {
    forall k :: 0 <= k <= |entries| ==> TotalOf(Overwritten(map[], entries[..k])) <= U64_MAX
  }

  /** Later entries replace earlier ones, but every total on the way has to fit. */
  method FromClientBytes(entries: seq<(ClientId, nat)>) returns (r: Result<FootprintIndex, Overflow>)
    requires forall i :: 0 <= i < |entries| ==> entries[i].1 <= U64_MAX
    ensures r.Ok? <==> EveryPrefixFits(entries)
    ensures r.Ok? ==> fresh(r.value) && r.value.Valid() && r.value.bytes == Overwritten(map[], entries)
  {
    var footprint := new FootprintIndex([]);
    for i := 0 to |entries|
      invariant fresh(footprint) && footprint.Valid()
      invariant footprint.bytes == Overwritten(map[], entries[..i])
      invariant forall k :: 0 <= k <= i ==> TotalOf(Overwritten(map[], entries[..k])) <= U64_MAX
    {
      assert entries[..i + 1][..i] == entries[..i];
      var written := footprint.SetBytes(entries[i].0, entries[i].1);
      if written.Err? {
        return Err(Overflow);
      }
    }
    assert entries[..|entries|] == entries;
    r := Ok(footprint);
  }

  function BytesOf(entries: seq<(ClientId, nat)>): seq<nat> {
    seq(|entries|, i requires 0 <= i < |entries| => entries[i].1)
  }

  ghost predicate DistinctClients(entries: seq<(ClientId, nat)>) {
    forall i, j :: 0 <= i < j < |entries| ==> entries[i].0 != entries[j].0
  }

  lemma {:induction false} OverwrittenClients(entries: seq<(ClientId, nat)>, c: ClientId)
    ensures c in Overwritten(map[], entries) <==> exists i :: 0 <= i < |entries| && entries[i].0 == c
  {
    var n := |entries|;
    if n > 0 {
      OverwrittenClients(entries[..n - 1], c);
      assert entries == entries[..n - 1] + [entries[n - 1]];
    }
  }

  lemma {:induction false} DistinctTotal(entries: seq<(ClientId, nat)>)
    requires DistinctClients(entries)
    ensures TotalOf(Overwritten(map[], entries)) == Sum(BytesOf(entries))
  {
    var n := |entries|;
    if n > 0 {
      var front := entries[..n - 1];
      DistinctTotal(front);
      assert BytesOf(entries)[..n - 1] == BytesOf(front);
      var before := Overwritten(map[], front);
      OverwrittenClients(front, entries[n - 1].0);
      assert entries[n - 1].0 !in before;
      TotalReplaced(before, entries[n - 1].0, entries[n - 1].1);
    }
  }

  lemma {:induction false} NonNegative(s: seq<nat>)
    ensures Sum(s) >= 0
  {
    CheckedSumIsSum(s);
  }

  /** With one entry for each client, building succeeds exactly when the sum fits, in whatever order. */
  lemma {:induction false} DistinctEntriesFit(entries: seq<(ClientId, nat)>)
    requires DistinctClients(entries)
    ensures EveryPrefixFits(entries) <==> Sum(BytesOf(entries)) <= U64_MAX
  {
    assert entries[..|entries|] == entries;
    DistinctTotal(entries);
    forall k | 0 <= k <= |entries|
      ensures TotalOf(Overwritten(map[], entries[..k])) <= Sum(BytesOf(entries))
    {
      DistinctTotal(entries[..k]);
      var head, tail := BytesOf(entries[..k]), BytesOf(entries[k..]);
      SumAppend(head, tail);
      NonNegative(tail);
      assert BytesOf(entries) == head + tail;
    }
  }
}
