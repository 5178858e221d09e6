/** Labelling machines by configured input roots: the deepest root around a path names it. */
module MachineLabels {
  import opened Options
  import opened Ascending

  /** The components of a path, numbered in their order; a prefix is an ancestor. */
  type Path = seq<nat>

  /** What the file system makes of a configured path. */
  datatype Canonical = Found(path: Path) | NotFound | Unreadable

  datatype Setting = Setting(path: Path, canonical: Canonical, name: string)

  datatype SettingsError = MachinePath(path: Path) | ConflictingMachineRoot(path: Path)

  datatype Root = Root(path: Path, name: string)

  datatype Labels = Labels(roots: seq<Root>, local: string)

  predicate IsBlank(c: char) {
    c == ' ' || '\t' <= c <= '\r'
  }

  function Trim(s: string): (r: string)
    ensures r != "" ==> !IsBlank(r[0]) && !IsBlank(r[|r| - 1])
    decreases |s|
  {
    if s == "" then s
    else if IsBlank(s[0]) then Trim(s[1..])
    else if IsBlank(s[|s| - 1]) then Trim(s[..|s| - 1])
    else s
  }

  /** `r` is what remains of `s` without the blanks at both ends. */
  ghost predicate IsTrimmed(s: string, r: string) {
    exists i: nat, j: nat :: IsCore(s, i, j) && r == s[i..j]
  }

  ghost predicate IsCore(s: string, i: nat, j: nat) {
    && i <= j <= |s|
    && (forall k :: 0 <= k < i || j <= k < |s| ==> IsBlank(s[k]))
    && (i < j ==> !IsBlank(s[i]) && !IsBlank(s[j - 1]))
  }

  lemma CoreBehindBlank(s: string, i: nat, j: nat)
    requires s != "" && IsBlank(s[0]) && IsCore(s[1..], i, j)
    ensures IsCore(s, i + 1, j + 1) && s[1..][i..j] == s[i + 1..j + 1]
  {
    var rest := s[1..];
    forall k | 0 <= k < i + 1 || j + 1 <= k < |s| ensures IsBlank(s[k]) {
      if k > 0 {
        assert s[k] == rest[k - 1];
      }
    }
  }

  lemma CoreBeforeBlank(s: string, i: nat, j: nat)
    requires s != "" && IsBlank(s[|s| - 1]) && IsCore(s[..|s| - 1], i, j)
    ensures IsCore(s, i, j) && s[..|s| - 1][i..j] == s[i..j]
  {
    var front := s[..|s| - 1];
    forall k | 0 <= k < i || j <= k < |s| ensures IsBlank(s[k]) {
      if k < |s| - 1 {
        assert s[k] == front[k];
      }
    }
  }

  lemma {:induction false} TrimIsTrimmed(s: string)
    ensures IsTrimmed(s, Trim(s))
    decreases |s|
  {
    if s == "" {
      assert IsCore(s, 0, 0);
    } else if IsBlank(s[0]) {
      TrimIsTrimmed(s[1..]);
      var i: nat, j: nat :| IsCore(s[1..], i, j) && Trim(s) == s[1..][i..j];
      CoreBehindBlank(s, i, j);
    } else if IsBlank(s[|s| - 1]) {
      TrimIsTrimmed(s[..|s| - 1]);
      var i: nat, j: nat :| IsCore(s[..|s| - 1], i, j) && Trim(s) == s[..|s| - 1][i..j];
      CoreBeforeBlank(s, i, j);
    } else {
      assert IsCore(s, 0, |s|) && s[0..|s|] == s;
    }
  }

  /** Trimming determines its result: it is what remains, and nothing else is. */
  lemma {:induction false} TrimIsExact(s: string, r: string)
    ensures IsTrimmed(s, r) <==> r == Trim(s)
  {
    TrimIsTrimmed(s);
    if IsTrimmed(s, r) {
      var i: nat, j: nat :| IsCore(s, i, j) && r == s[i..j];
      var k: nat, l: nat :| IsCore(s, k, l) && Trim(s) == s[k..l];
      SameCore(s, i, j, k, l);
    }
  }

  lemma SameCore(s: string, i: nat, j: nat, k: nat, l: nat)
    requires IsCore(s, i, j) && IsCore(s, k, l)
    ensures s[i..j] == s[k..l]
  {
    if i < j && k < l {
      assert !(i < k) && !(k < i) && !(j < l) && !(l < j);
    }
  }

  predicate IsAncestor(root: Path, path: Path) {
    root <= path
  }

  /** Component by component, the path begins as the root does. */
  predicate IsAround(root: Path, path: Path) {
    |root| <= |path| && forall k :: 0 <= k < |root| ==> root[k] == path[k]
  }

  function CanonicalPath(s: Setting): Path {
    if s.canonical.Found? then s.canonical.path else s.path
  }

  // ----- What the settings say

  /** The setting's trimmed label, for its path and for the one the file system makes of it. */
  ghost predicate Gives(s: Setting, path: Path, name: string) {
    IsTrimmed(s.name, name) && (path == s.path || s.canonical == Found(path))
  }

  /** Some setting gives the root this label, under its own path or its canonical one. */
  ghost predicate Labelled(settings: seq<Setting>, path: Path, name: string) {
    exists s :: s in settings && Gives(s, path, name)
  }

  ghost predicate Readable(settings: seq<Setting>) {
    forall i :: 0 <= i < |settings| ==> !settings[i].canonical.Unreadable?
  }

  /** No root has two labels. */
  ghost predicate Unambiguous(settings: seq<Setting>) {
    forall path, a, b :: Labelled(settings, path, a) && Labelled(settings, path, b) ==> a == b
  }

  /** The map holds the label of every labelled root, and no other. */
  ghost predicate Records(roots: map<Path, string>, settings: seq<Setting>) {
    && (forall path :: path in roots ==> Labelled(settings, path, roots[path]))
    && (forall path, name :: Labelled(settings, path, name) ==> path in roots && roots[path] == name)
  }

  lemma RecordsIsUnambiguous(roots: map<Path, string>, settings: seq<Setting>)
    requires Records(roots, settings)
    ensures Unambiguous(settings)
  {
  }

  lemma LabelledStep(settings: seq<Setting>, n: nat, path: Path, name: string)
    requires n < |settings|
    ensures Labelled(settings[..n + 1], path, name)
        <==> Labelled(settings[..n], path, name) || Gives(settings[n], path, name)
  {
    assert settings[..n + 1] == settings[..n] + [settings[n]];
  }

  lemma LabelledLater(settings: seq<Setting>, n: nat, path: Path, name: string)
    requires n <= |settings| && Labelled(settings[..n], path, name)
    ensures Labelled(settings, path, name)
  {
    assert forall s :: s in settings[..n] ==> s in settings;
  }

  // ----- Order of the roots

  /** Deeper roots first, roots of one depth by their path. */
  predicate Precedes(a: Root, b: Root) {
    |a.path| > |b.path| || (|a.path| == |b.path| && (a.path == b.path || Less(a.path, b.path)))
  }

  predicate DeepestFirst(roots: seq<Root>) {
    forall i, j :: 0 <= i < j < |roots| ==> Precedes(roots[i], roots[j])
  }

  function Insert(roots: seq<Root>, r: Root): (out: seq<Root>)
    ensures forall x :: x in out <==> x == r || x in roots
  {
    if |roots| == 0 || Precedes(r, roots[0]) then [r] + roots else [roots[0]] + Insert(roots[1..], r)
  }

  lemma PrecedesIsOrder(a: Root, b: Root, c: Root)
    ensures Precedes(a, b) || Precedes(b, a)
    ensures Precedes(a, b) && Precedes(b, c) ==> Precedes(a, c)
  {
    LessIsTotal(a.path, b.path);
    if Less(a.path, b.path) && Less(b.path, c.path) {
      LessIsTransitive(a.path, b.path, c.path);
    }
  }

  lemma {:induction false} InsertKeepsOrder(roots: seq<Root>, r: Root)
    requires DeepestFirst(roots)
    ensures DeepestFirst(Insert(roots, r))
  {
    if |roots| == 0 {
    } else if Precedes(r, roots[0]) {
      forall j | 0 <= j < |roots| ensures Precedes(r, roots[j]) {
        PrecedesIsOrder(r, roots[0], roots[j]);
      }
    } else {
      var rest := Insert(roots[1..], r);
      InsertKeepsOrder(roots[1..], r);
      PrecedesIsOrder(roots[0], r, r);
      forall j | 0 <= j < |rest| ensures Precedes(roots[0], rest[j]) {
        assert rest[j] in rest;
      }
    }
  }

  // ----- Resolving

  /** The roots as they end up sorted, with every labelled root among them. */
  ghost predicate Sorted(out: seq<Root>, settings: seq<Setting>) {
    && DeepestFirst(out)
    && forall path, name :: Root(path, name) in out <==> Labelled(settings, path, name)
  }

  method AddRoot(roots: map<Path, string>, path: Path, name: string)
    returns (r: Result<map<Path, string>, SettingsError>)
    ensures r.Err? <==> path in roots && roots[path] != name
    ensures r == if path in roots && roots[path] != name then Err(ConflictingMachineRoot(path))
                 else Ok(roots[path := name])
  {
    if path in roots && roots[path] != name {
      return Err(ConflictingMachineRoot(path));
    }
    r := Ok(roots[path := name]);
  }

  /** Both spellings of one setting; on a conflict no map records the settings so far. */
  method AddSetting(settings: seq<Setting>, n: nat, roots: map<Path, string>)
    returns (r: Result<map<Path, string>, SettingsError>)
    requires n < |settings| && Records(roots, settings[..n]) && !settings[n].canonical.Unreadable?
    ensures r.Ok? <==> Unambiguous(settings[..n + 1])
    ensures r.Ok? ==> Records(r.value, settings[..n + 1])
    ensures r.Err? ==> r.error.ConflictingMachineRoot? && Gives(settings[n], r.error.path, Trim(settings[n].name))
  {
    var name := Trim(settings[n].name);
    TrimIsExact(settings[n].name, name);
    r := AddRoot(roots, settings[n].path, name);
    if r.Err? {
      Conflict(settings, n, roots, settings[n].path);
      return;
    }
    r := AddRoot(r.value, CanonicalPath(settings[n]), name);
    if r.Err? {
      Conflict(settings, n, roots, CanonicalPath(settings[n]));
      return;
    }
    RecordsStep(settings, n, roots, r.value);
    RecordsIsUnambiguous(r.value, settings[..n + 1]);
  }

  lemma RecordsStep(settings: seq<Setting>, n: nat, roots: map<Path, string>, more: map<Path, string>)
    requires n < |settings| && Records(roots, settings[..n])
    requires var name, own, canonical := Trim(settings[n].name), settings[n].path, CanonicalPath(settings[n]);
             && (own in roots ==> roots[own] == name) && (canonical in roots ==> roots[canonical] == name)
             && more == roots[own := name][canonical := name]
    ensures Records(more, settings[..n + 1])
  {
    var longer := settings[..n + 1];
    forall path | path in more ensures Labelled(longer, path, more[path]) {
      LabelledStep(settings, n, path, more[path]);
      TrimIsExact(settings[n].name, more[path]);
    }
    forall path, name | Labelled(longer, path, name) ensures path in more && more[path] == name {
      LabelledStep(settings, n, path, name);
      TrimIsExact(settings[n].name, name);
    }
  }

  lemma Conflict(settings: seq<Setting>, n: nat, roots: map<Path, string>, path: Path)
    requires n < |settings| && Records(roots, settings[..n])
    requires path == settings[n].path || settings[n].canonical == Found(path)
    requires path in roots && roots[path] != Trim(settings[n].name)
    ensures !Unambiguous(settings[..n + 1])
  {
    TrimIsExact(settings[n].name, Trim(settings[n].name));
    LabelledStep(settings, n, path, roots[path]);
    LabelledStep(settings, n, path, Trim(settings[n].name));
  }

  lemma AmbiguousLater(settings: seq<Setting>, n: nat)
    requires n <= |settings|
    ensures Unambiguous(settings) ==> Unambiguous(settings[..n])
  {
    forall path, name | Labelled(settings[..n], path, name) ensures Labelled(settings, path, name) {
      LabelledLater(settings, n, path, name);
    }
  }

  /** The first setting that cannot be read, or gives a root another label than an earlier one. */
  ghost predicate StopsAt(settings: seq<Setting>, n: nat, e: SettingsError)
    requires n < |settings|
  {
    && Readable(settings[..n]) && Unambiguous(settings[..n])
    && match e
       case MachinePath(path) => settings[n].canonical.Unreadable? && path == settings[n].path
       case ConflictingMachineRoot(path) =>
         && !settings[n].canonical.Unreadable? && !Unambiguous(settings[..n + 1])
         && Gives(settings[n], path, Trim(settings[n].name))
  }

  /** Resolving succeeds exactly when every root can be read and none gets two labels. */
  method Resolve(settings: seq<Setting>, local: string) returns (r: Result<Labels, SettingsError>)
    ensures r.Ok? <==> Readable(settings) && Unambiguous(settings)
    ensures r.Ok? ==> Sorted(r.value.roots, settings) && IsTrimmed(local, r.value.local)
    ensures r.Err? ==> exists n: nat :: n < |settings| && StopsAt(settings, n, r.error)
  {
    var roots: map<Path, string> := map[];
    for n := 0 to |settings|
      invariant Readable(settings[..n]) && Records(roots, settings[..n])
    {
      assert settings[..n + 1] == settings[..n] + [settings[n]];
      RecordsIsUnambiguous(roots, settings[..n]);
      if settings[n].canonical.Unreadable? {
        r := Err(MachinePath(settings[n].path));
        assert StopsAt(settings, n, r.error);
        return;
      }
      var added := AddSetting(settings, n, roots);
      if added.Err? {
        AmbiguousLater(settings, n + 1);
        r := Err(added.error);
        assert StopsAt(settings, n, r.error);
        return;
      }
      roots := added.value;
    }
    assert settings[..|settings|] == settings;
    RecordsIsUnambiguous(roots, settings);
    var sorted := SortRoots(roots);
    TrimIsExact(local, Trim(local));
    r := Ok(Labels(sorted, Trim(local)));
  }

  method SortRoots(roots: map<Path, string>) returns (sorted: seq<Root>)
    ensures DeepestFirst(sorted)
    ensures forall path, name :: Root(path, name) in sorted <==> path in roots && roots[path] == name
  {
    var keys := InOrder(roots.Keys, (p: Path) => p);
    sorted := [];
    for i := 0 to |keys|
      invariant DeepestFirst(sorted)
      invariant forall path, name ::
                  Root(path, name) in sorted <==> path in keys[..i] && path in roots && roots[path] == name
    {
      assert keys[..i + 1] == keys[..i] + [keys[i]];
      InsertKeepsOrder(sorted, Root(keys[i], roots[keys[i]]));
      sorted := Insert(sorted, Root(keys[i], roots[keys[i]]));
    }
    assert keys[..|keys|] == keys;
  }

  // ----- Labelling

  function FirstAncestor(roots: seq<Root>, path: Path): Option<string> {
    if |roots| == 0 then None
    else if IsAncestor(roots[0].path, path) then Some(roots[0].name)
    else FirstAncestor(roots[1..], path)
  }

  function Label(labels: Labels, path: Path): string {
    match FirstAncestor(labels.roots, path)
    case Some(name) => name
    case None => labels.local
  }

  /** The root is around the path, and no deeper labelled root is. */
  ghost predicate IsDeepest(settings: seq<Setting>, root: Path, name: string, path: Path) {
    && Labelled(settings, root, name) && IsAround(root, path)
    && forall other, l :: Labelled(settings, other, l) && IsAround(other, path) ==> |other| <= |root|
  }

  ghost predicate NoneAround(settings: seq<Setting>, path: Path) {
    forall root, name :: Labelled(settings, root, name) ==> !IsAround(root, path)
  }

  ghost predicate IsDeepestOf(roots: seq<Root>, r: Root, path: Path) {
    && r in roots && IsAround(r.path, path)
    && forall other :: other in roots && IsAround(other.path, path) ==> |other.path| <= |r.path|
  }

  lemma AncestorIsAround(root: Path, path: Path)
    ensures IsAncestor(root, path) <==> IsAround(root, path)
  {
  }

  lemma {:induction false} FirstAncestorIsDeepest(roots: seq<Root>, path: Path) returns (r: Root)
    requires DeepestFirst(roots)
    ensures match FirstAncestor(roots, path)
            case None => forall root :: root in roots ==> !IsAround(root.path, path)
            case Some(name) => r.name == name && IsDeepestOf(roots, r, path)
  {
    if |roots| == 0 {
      r := Root([], "");
    } else if IsAncestor(roots[0].path, path) {
      AncestorIsAround(roots[0].path, path);
      r := roots[0];
    } else {
      AncestorIsAround(roots[0].path, path);
      assert roots == [roots[0]] + roots[1..];
      r := FirstAncestorIsDeepest(roots[1..], path);
    }
  }

  lemma DeepestIsLabelled(settings: seq<Setting>, roots: seq<Root>, r: Root, path: Path)
    requires Sorted(roots, settings) && IsDeepestOf(roots, r, path)
    ensures IsDeepest(settings, r.path, r.name, path)
  {
    assert r == Root(r.path, r.name);
    forall other, l | Labelled(settings, other, l) && IsAround(other, path) ensures |other| <= |r.path| {
      assert Root(other, l) in roots;
    }
  }

  lemma DeepestIsUnique(settings: seq<Setting>, path: Path, a: Path, m: string, b: Path, n: string)
    requires Unambiguous(settings) && IsDeepest(settings, a, m, path) && IsDeepest(settings, b, n, path)
    ensures a == b && m == n
  {
    AncestorIsAround(a, path);
    AncestorIsAround(b, path);
    assert a == path[..|a|] == b;
  }

  /** A path bears the label of the deepest labelled root around it, or the local one if there is none. */
  lemma {:induction false} LabelIsDeepest(settings: seq<Setting>, labels: Labels, path: Path)
    requires Unambiguous(settings) && Sorted(labels.roots, settings)
    ensures NoneAround(settings, path) ==> Label(labels, path) == labels.local
    ensures !NoneAround(settings, path) ==> exists root :: IsDeepest(settings, root, Label(labels, path), path)
    ensures forall root, name :: IsDeepest(settings, root, name, path) ==> Label(labels, path) == name
  {
    var r := FirstAncestorIsDeepest(labels.roots, path);
    match FirstAncestor(labels.roots, path)
    case None =>
      forall root, name | Labelled(settings, root, name) ensures !IsAround(root, path) {
        assert Root(root, name) in labels.roots;
      }
    case Some(found) =>
      DeepestIsLabelled(settings, labels.roots, r, path);
      assert IsDeepest(settings, r.path, Label(labels, path), path);
      forall root, name | IsDeepest(settings, root, name, path) ensures name == found {
        DeepestIsUnique(settings, path, root, name, r.path, found);
      }
  }

  lemma SameLabelled(a: seq<Setting>, b: seq<Setting>, path: Path, name: string)
    requires (forall s :: s in a ==> s in b) && Labelled(a, path, name)
    ensures Labelled(b, path, name)
  {
  }

  /** Two orders of the same settings are both accepted or both refused, and label every path alike. */
  lemma OrderOfSettingsIsIrrelevant(a: seq<Setting>, b: seq<Setting>, la: Labels, lb: Labels, path: Path)
    requires forall s :: s in a <==> s in b
    ensures Readable(a) && Unambiguous(a) <==> Readable(b) && Unambiguous(b)
    ensures Unambiguous(a) && Sorted(la.roots, a) && Sorted(lb.roots, b) && la.local == lb.local ==>
              Label(la, path) == Label(lb, path)
  {
    forall p, l ensures Labelled(a, p, l) <==> Labelled(b, p, l) {
      if Labelled(a, p, l) { SameLabelled(a, b, p, l); }
      if Labelled(b, p, l) { SameLabelled(b, a, p, l); }
    }
    assert Readable(a) <==> forall s :: s in a ==> !s.canonical.Unreadable?;
    assert Readable(b) <==> forall s :: s in b ==> !s.canonical.Unreadable?;
    if Unambiguous(a) && Sorted(la.roots, a) && Sorted(lb.roots, b) && la.local == lb.local {
      SameDeepest(a, b, la, lb, path);
    }
  }

  lemma SameDeepest(a: seq<Setting>, b: seq<Setting>, la: Labels, lb: Labels, path: Path)
    requires forall p, l :: Labelled(a, p, l) <==> Labelled(b, p, l)
    requires Unambiguous(a) && Unambiguous(b) && Sorted(la.roots, a) && Sorted(lb.roots, b) && la.local == lb.local
    ensures Label(la, path) == Label(lb, path)
  {
    LabelIsDeepest(a, la, path);
    LabelIsDeepest(b, lb, path);
    if !NoneAround(a, path) {
      var root :| IsDeepest(a, root, Label(la, path), path);
      assert IsDeepest(b, root, Label(la, path), path);
    }
  }
}
