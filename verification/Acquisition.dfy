/** Measuring discovered inputs: every file identity counts once within its group. */
module Acquisition {
  import opened Options
  import opened Words
  import opened Sums
  import opened InputHealth
  import opened InputFootprint

  type Identity = nat

  datatype FileSnapshot = Present(identity: Identity, size: nat) | Absent

  /** The files of all units of a group, as they are visited. */
  datatype Group = Group(client: ClientId, files: seq<FileSnapshot>)

  predicate WordSized(groups: seq<Group>) {
    forall g, f :: 0 <= g < |groups| && 0 <= f < |groups[g].files| && groups[g].files[f].Present? ==>
      groups[g].files[f].size <= U64_MAX
  }

  function Identities(files: seq<FileSnapshot>): set<Identity> {
    set f | f in files && f.Present? :: f.identity
  }

  // ----- What a group holds

  /** Whether the file at `i` is there and the first one of its identity. */
  predicate FirstOfItsKind(files: seq<FileSnapshot>, i: nat)
    requires i < |files|
  {
    files[i].Present? && forall j :: 0 <= j < i && files[j].Present? ==> files[j].identity != files[i].identity
  }

  /** The sizes of the first files of each identity, zero for all others. */
  function Sizes(files: seq<FileSnapshot>): (r: seq<nat>)
    ensures |r| == |files|
  {
    seq(|files|, i requires 0 <= i < |files| => if FirstOfItsKind(files, i) then files[i].size else 0)
  }

  function GroupBytes(g: Group): int {
    Sum(Sizes(g.files))
  }

  function ClientBytes(groups: seq<Group>, c: ClientId): int {
    if |groups| == 0 then 0
    else
      ClientBytes(groups[..|groups| - 1], c)
      + if groups[|groups| - 1].client == c then GroupBytes(groups[|groups| - 1]) else 0
  }

  function AllBytes(groups: seq<Group>): int {
    if |groups| == 0 then 0 else AllBytes(groups[..|groups| - 1]) + GroupBytes(groups[|groups| - 1])
  }

  lemma SizesStep(files: seq<FileSnapshot>, i: nat)
    requires i < |files|
    ensures Sum(Sizes(files[..i + 1]))
         == Sum(Sizes(files[..i]))
            + if files[i].Present? && files[i].identity !in Identities(files[..i]) then files[i].size else 0
  {
    var longer := files[..i + 1];
    assert Sizes(longer)[..i] == Sizes(files[..i]) by {
      forall j | 0 <= j < i ensures Sizes(longer)[j] == Sizes(files[..i])[j] {
        assert FirstOfItsKind(longer, j) <==> FirstOfItsKind(files[..i], j);
      }
    }
    if files[i].Present? {
      SeenBefore(files, i);
    }
  }

  lemma SeenBefore(files: seq<FileSnapshot>, i: nat)
    requires i < |files| && files[i].Present?
    ensures FirstOfItsKind(files[..i + 1], i) <==> files[i].identity !in Identities(files[..i])
  {
    if files[i].identity in Identities(files[..i]) {
      var f :| f in files[..i] && f.Present? && f.identity == files[i].identity;
      var j :| 0 <= j < i && files[..i][j] == f;
      assert files[..i + 1][j] == f;
    } else {
      var longer := files[..i + 1];
      forall j | 0 <= j < i && longer[j].Present?
        ensures longer[j].identity != files[i].identity
      {
        assert files[..i][j] in files[..i];
      }
    }
  }

  lemma IdentitiesStep(files: seq<FileSnapshot>, i: nat)
    requires i < |files|
    ensures Identities(files[..i + 1])
         == Identities(files[..i]) + if files[i].Present? then {files[i].identity} else {}
  {
    assert files[..i + 1] == files[..i] + [files[i]];
  }

  lemma {:induction false} SizesSum(files: seq<FileSnapshot>, i: nat)
    requires i <= |files|
    ensures 0 <= Sum(Sizes(files[..i])) <= Sum(Sizes(files))
    decreases |files| - i
  {
    NonNegative(Sizes(files[..i]));
    if i == |files| {
      assert files[..i] == files;
    } else {
      SizesStep(files, i);
      SizesSum(files, i + 1);
    }
  }

  lemma {:induction false} AllBytesGrow(groups: seq<Group>, k: nat)
    requires k <= |groups|
    ensures 0 <= AllBytes(groups[..k]) <= AllBytes(groups)
    decreases |groups|
  {
    if k == |groups| {
      assert groups[..k] == groups;
      if k > 0 {
        AllBytesGrow(groups[..k - 1], k - 1);
        assert groups[..k - 1][..k - 1] == groups[..k - 1];
        NonNegative(Sizes(groups[k - 1].files));
      }
    } else {
      assert groups[..|groups| - 1][..k] == groups[..k];
      AllBytesGrow(groups[..|groups| - 1], k);
      NonNegative(Sizes(groups[|groups| - 1].files));
    }
  }

  // ----- The fold

  /**
   * Adds one group, counting every identity once. It gives up, as the source does by panicking,
   * exactly when the total no longer fits.
   */
  method AddGroup(footprint: FootprintIndex, group: Group) returns (ok: bool)
    requires footprint.Valid() && WordSized([group])
    modifies footprint
    ensures footprint.Valid()
    ensures ok <==> old(TotalOf(footprint.bytes)) + GroupBytes(group) <= U64_MAX
    ensures ok ==> TotalOf(footprint.bytes) == old(TotalOf(footprint.bytes)) + GroupBytes(group)
    ensures ok ==> forall c :: BytesFor(footprint.bytes, c)
                               == old(BytesFor(footprint.bytes, c)) + if c == group.client then GroupBytes(group) else 0
    ensures ok ==> footprint.bytes.Keys
                   == old(footprint.bytes.Keys) + if Identities(group.files) == {} then {} else {group.client}
  {
    var seen: set<Identity> := {};
    var files := group.files;
    for f := 0 to |files|
      invariant footprint.Valid() && seen == Identities(files[..f])
      invariant TotalOf(footprint.bytes) == old(TotalOf(footprint.bytes)) + Sum(Sizes(files[..f]))
      invariant forall c :: BytesFor(footprint.bytes, c)
                            == old(BytesFor(footprint.bytes, c))
                               + if c == group.client then Sum(Sizes(files[..f])) else 0
      invariant footprint.bytes.Keys == old(footprint.bytes.Keys) + if seen == {} then {} else {group.client}
    {
      SizesStep(files, f);
      IdentitiesStep(files, f);
      if files[f].Present? && files[f].identity !in seen {
        seen := seen + {files[f].identity};
        assert [group][0].files[f].size <= U64_MAX;
        var added := AddFile(footprint, group.client, files[f].size);
        if !added {
          SizesSum(files, f + 1);
          return false;
        }
      }
    }
    assert files[..|files|] == files;
    ok := true;
  }

  method AddFile(footprint: FootprintIndex, client: ClientId, size: nat) returns (ok: bool)
    requires footprint.Valid() && size <= U64_MAX
    modifies footprint
    ensures footprint.Valid()
    ensures ok <==> old(TotalOf(footprint.bytes)) + size <= U64_MAX
    ensures ok ==> footprint.bytes == old(footprint.bytes)[client := old(BytesFor(footprint.bytes, client)) + size]
    ensures ok ==> TotalOf(footprint.bytes) == old(TotalOf(footprint.bytes)) + size
  {
    TotalReplaced(footprint.bytes, client, BytesFor(footprint.bytes, client) + size);
    var r := footprint.AddBytes(client, size);
    ok := r.Ok?;
  }

  predicate HasFiles(groups: seq<Group>, c: ClientId) {
    exists g :: 0 <= g < |groups| && groups[g].client == c && Identities(groups[g].files) != {}
  }

  /**
   * Each client gets the bytes of its groups' distinct files. Selected clients are listed even
   * without any, and the fold fails exactly when all the bytes together do not fit.
   */
  method InventoryFootprint(clients: seq<ClientId>, groups: seq<Group>) returns (r: Option<FootprintIndex>)
    requires WordSized(groups)
    ensures r.Some? <==> AllBytes(groups) <= U64_MAX
    ensures r.Some? ==> fresh(r.value) && r.value.Valid() && TotalOf(r.value.bytes) == AllBytes(groups)
    ensures r.Some? ==> forall c :: BytesFor(r.value.bytes, c) == ClientBytes(groups, c)
    ensures r.Some? ==> forall c :: c in r.value.bytes <==> c in clients || HasFiles(groups, c)
  {
    var footprint := new FootprintIndex(clients);
    ZeroTotal(footprint.bytes.Keys, footprint.bytes);
    for g := 0 to |groups|
      invariant fresh(footprint) && footprint.Valid()
      invariant TotalOf(footprint.bytes) == AllBytes(groups[..g])
      invariant forall c :: BytesFor(footprint.bytes, c) == ClientBytes(groups[..g], c)
      invariant forall c :: c in footprint.bytes <==> c in clients || HasFiles(groups[..g], c)
    {
      assert groups[..g + 1][..g] == groups[..g];
      var added := AddGroup(footprint, groups[g]);
      if !added {
        AllBytesGrow(groups, g + 1);
        return None;
      }
      HasFilesStep(groups, g);
    }
    assert groups[..|groups|] == groups;
    r := Some(footprint);
  }

  lemma HasFilesStep(groups: seq<Group>, g: nat)
    requires g < |groups|
    ensures forall c :: HasFiles(groups[..g + 1], c) <==>
              HasFiles(groups[..g], c) || (groups[g].client == c && Identities(groups[g].files) != {})
  {
    var longer, shorter := groups[..g + 1], groups[..g];
    forall c
      ensures HasFiles(longer, c) <==>
                HasFiles(shorter, c) || (groups[g].client == c && Identities(groups[g].files) != {})
    {
      if HasFiles(shorter, c) {
        var i :| 0 <= i < |shorter| && shorter[i].client == c && Identities(shorter[i].files) != {};
        assert longer[i] == shorter[i];
      }
      if groups[g].client == c && Identities(groups[g].files) != {} {
        assert longer[g] == groups[g];
      }
      if HasFiles(longer, c) {
        var i :| 0 <= i < |longer| && longer[i].client == c && Identities(longer[i].files) != {};
        if i < g {
          assert shorter[i] == longer[i];
        }
      }
    }
  }
}
