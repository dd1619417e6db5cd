/**
 From path strings to the segment paths of the tree: filepath.Join with its lexical cleaning, the
 path builders of the filesystem backend, and why no two blobs, configs or repositories meet.
 */
module StorageLayout {
  import opened Prelude
  import opened Text
  import opened RepoPrefix
  import opened BlobNames
  import opened FileTree
  import opened FileBackend
  import opened BlobStore
  import opened SimpleStore

  // ----- filepath.Join and filepath.Clean

  predicate Rooted(p: string) {
    p != "" && p[0] == '/'
  }

  /** What ".." does: it takes the last element back, stays at the root, or is kept. */
  function Up(stack: seq<string>, rooted: bool): seq<string> {
    if stack != [] && stack[|stack| - 1] != ".." then stack[..|stack| - 1]
    else if rooted then stack
    else stack + [".."]
  }

  function CleanParts(parts: seq<string>, stack: seq<string>, rooted: bool): seq<string>
    decreases parts
  {
    if parts == [] then stack
    else if parts[0] == "" || parts[0] == "." then CleanParts(parts[1..], stack, rooted)
    else if parts[0] == ".." then CleanParts(parts[1..], Up(stack, rooted), rooted)
    else CleanParts(parts[1..], stack + [parts[0]], rooted)
  }

  /** The segments of a cleaned path. */
  function PathSegs(p: string): seq<string> {
    CleanParts(Split(p), [], Rooted(p))
  }

  /** The string of a cleaned path. */
  function PathString(rooted: bool, segs: seq<string>): string {
    if rooted then "/" + Join(segs) else if segs == [] then "." else Join(segs)
  }

  function CleanPath(p: string): string {
    if p == "" then "." else PathString(Rooted(p), PathSegs(p))
  }

  /** filepath.Join: empty elements are skipped, the rest joined and cleaned. */
  function JoinPath(elems: seq<string>): string {
    if NonEmpty(elems) == [] then "" else CleanPath(Join(NonEmpty(elems)))
  }

  // ----- The path builders, as strings

  function RepoPathString(base: string, prefix: string): string {
    if prefix != "" then JoinPath([base, prefix]) else base
  }

  function BlobPathString(base: string, prefix: string, t: string, name: string): string {
    if t == "data" && |name| >= 2 then JoinPath([RepoPathString(base, prefix), "data", name[..2], name])
    else JoinPath([RepoPathString(base, prefix), t, name])
  }

  function FlatPathString(base: string, prefix: string, name: string): string {
    JoinPath([RepoPathString(base, prefix), "data", name])
  }

  function ConfigPathString(base: string, prefix: string): string {
    JoinPath([RepoPathString(base, prefix), "config"])
  }

  // ----- Cleaning

  /** The segments that cleaning leaves: ".." only at the front of a path that is not rooted. */
  ghost predicate Normal(segs: seq<string>, rooted: bool) {
    && SlashFree(segs) && "" !in segs && "." !in segs
    && (forall i :: 0 <= i < |segs| && segs[i] == ".." ==> !rooted && forall j :: 0 <= j < i ==> segs[j] == "..")
  }

  lemma {:induction false} CleanPartsNormal(parts: seq<string>, stack: seq<string>, rooted: bool)
    requires SlashFree(parts) && Normal(stack, rooted)
    ensures Normal(CleanParts(parts, stack, rooted), rooted)
    decreases parts
  {
    if parts != [] {
      if parts[0] == "" || parts[0] == "." {
        CleanPartsNormal(parts[1..], stack, rooted);
      } else if parts[0] == ".." {
        UpNormal(stack, rooted);
        CleanPartsNormal(parts[1..], Up(stack, rooted), rooted);
      } else {
        CleanPartsNormal(parts[1..], stack + [parts[0]], rooted);
      }
    }
  }

  lemma UpNormal(stack: seq<string>, rooted: bool)
    requires Normal(stack, rooted)
    ensures Normal(Up(stack, rooted), rooted)
  {
  }

  /** Normal segments are cleaned to themselves, behind those that are there. */
  lemma {:induction false} CleanPartsOfNormal(segs: seq<string>, stack: seq<string>, rooted: bool)
    requires Normal(stack + segs, rooted)
    ensures CleanParts(segs, stack, rooted) == stack + segs
    decreases segs
  {
    if segs == [] {
      assert stack + segs == stack;
    } else {
      assert (stack + segs)[|stack|] == segs[0] && segs[0] in stack + segs;
      assert stack + segs == stack + [segs[0]] + segs[1..];
      if segs[0] == ".." {
        assert stack != [] ==> (stack + segs)[|stack| - 1] == "..";
      }
      CleanPartsOfNormal(segs[1..], stack + [segs[0]], rooted);
    }
  }

  lemma {:induction false} CleanPartsAppend(a: seq<string>, b: seq<string>, stack: seq<string>, rooted: bool)
    ensures CleanParts(a + b, stack, rooted) == CleanParts(b, CleanParts(a, stack, rooted), rooted)
    decreases a
  {
    if a == [] {
      assert a + b == b;
    } else {
      assert (a + b)[1..] == a[1..] + b;
      var next := if a[0] == "" || a[0] == "." then stack
          else if a[0] == ".." then Up(stack, rooted) else stack + [a[0]];
      CleanPartsAppend(a[1..], b, next, rooted);
    }
  }

  lemma PathSegsNormal(p: string)
    ensures Normal(PathSegs(p), Rooted(p))
  {
    SplitIsSlashFree(p);
    CleanPartsNormal(Split(p), [], Rooted(p));
  }

  /** The string of normal segments is nonempty and cleaned to them. */
  lemma SegsOfPathString(segs: seq<string>, rooted: bool)
    requires Normal(segs, rooted)
    ensures var p := PathString(rooted, segs);
      p != "" && Rooted(p) == rooted && PathSegs(p) == segs
  {
    var p := PathString(rooted, segs);
    assert [] + segs == segs;
    CleanPartsOfNormal(segs, [], rooted);
    if segs != [] {
      assert segs[0] in segs;
      SplitOfJoin(segs);
      hide Join, Normal, Up;
      JoinStarts(segs);
      if rooted {
        assert p[1..] == Join(segs);
        assert ([""] + segs)[1..] == segs;
      }
    } else if rooted {
      assert p[1..] == "" && Split(p) == ["", ""] && ["", ""][1..] == [""] && [""][1..] == [];
    } else {
      SplitOfPart(p);
      assert Split(p) == ["."] && ["."][1..] == [];
    }
  }

  lemma JoinStarts(segs: seq<string>)
    requires segs != [] && segs[0] != ""
    ensures Join(segs) != "" && Join(segs)[0] == segs[0][0]
  {
  }

  /** Cleaning a second time changes nothing. */
  lemma CleanIsIdempotent(p: string)
    ensures CleanPath(CleanPath(p)) == CleanPath(p)
  {
    PathSegsNormal(p);
    SegsOfPathString(PathSegs(p), Rooted(p));
    if p == "" {
      SegsOfPathString([], false);
    }
  }

  lemma CleanIsNormal(names: seq<string>, segs: seq<string>, rooted: bool)
    requires RepoPrefix.Clean(names) && Normal(segs, rooted)
    ensures Normal(segs + names, rooted)
  {
    forall i | 0 <= i < |names|
      ensures names[i] != ".." && names[i] != "." && names[i] != "" && '/' !in names[i]
    {
      assert CleanSegment(names[i]);
    }
  }

  /** Joining a path and clean names: the path cleaned, then the names. */
  lemma JoinPathAppends(p: string, names: seq<string>)
    requires p != "" && RepoPrefix.Clean(names) && names != []
    ensures JoinPath([p] + names) == PathString(Rooted(p), PathSegs(p) + names)
    ensures JoinPath([p, Join(names)]) == PathString(Rooted(p), PathSegs(p) + names)
  {
    var elems := [p] + names;
    CleanFacts(names);
    CleanJoinEnds(names);
    NonEmptyId(elems);
    NonEmptyId([p, Join(names)]);
    JoinAppend([p], names);
    assert Join([p]) == p && [p, Join(names)][1..] == [Join(names)] && Join([Join(names)]) == Join(names);
    var joined := p + "/" + Join(names);
    assert Join(elems) == joined && Join([p, Join(names)]) == joined;
    SplitAtSlash(p, Join(names));
    SplitOfJoin(names);
    CleanPartsAppend(Split(p), names, [], Rooted(p));
    PathSegsNormal(p);
    CleanIsNormal(names, PathSegs(p), Rooted(p));
    CleanPartsOfNormal(names, PathSegs(p), Rooted(p));
  }

  /** The directory of a repository: the storage directory cleaned, then the prefix. */
  lemma RepoPathIs(base: string, prefix: seq<string>)
    requires base != "" && RepoPrefix.Clean(prefix)
    ensures var r := RepoPathString(base, Join(prefix));
      r != "" && Rooted(r) == Rooted(base) && PathSegs(r) == PathSegs(base) + prefix
  {
    CleanJoinEnds(prefix);
    PathSegsNormal(base);
    if prefix != [] {
      JoinPathAppends(base, prefix);
      CleanIsNormal(prefix, PathSegs(base), Rooted(base));
      SegsOfPathString(PathSegs(base) + prefix, Rooted(base));
    } else {
      assert PathSegs(base) + prefix == PathSegs(base);
    }
  }

  lemma HexIsClean(name: string)
    requires ValidBlobName(name)
    ensures CleanSegment(name)
    ensures |name| >= 2 ==> CleanSegment(name[..2])
  {
    assert HexDigit(name[0]);
  }

  /** The strings that the path builders compute stand for the segment paths of the tree model, for
      every storage directory, absolute or relative, cleaned or not, every repository prefix and
      every valid target: the storage directory cleaned, then the segments. */
  lemma PathStrings(base: string, prefix: seq<string>, t: string, name: string)
    requires base != "" && RepoPrefix.Clean(prefix) && ValidTarget(t, name)
    ensures var rooted, segs := Rooted(base), PathSegs(base);
      && BlobPathString(base, Join(prefix), t, name) == PathString(rooted, segs + BlobPath(prefix, t, name))
      && FlatPathString(base, Join(prefix), name) == PathString(rooted, segs + FlatPath(prefix, name))
      && ConfigPathString(base, Join(prefix)) == PathString(rooted, segs + (prefix + ["config"]))
  {
    hide JoinPath, PathString, PathSegs, RepoPrefix.Clean, CleanSegment, Rooted;
    NamesAreClean(t, name);
    RepoPathIs(base, prefix);
    var r := RepoPathString(base, Join(prefix));
    BuiltPath(base, prefix, ["data", name]);
    assert [r] + ["data", name] == [r, "data", name] && ["data", name][1..] == [name];
    BuiltPath(base, prefix, ["config"]);
    assert [r] + ["config"] == [r, "config"];
    if HasFallback(t, name) {
      BuiltPath(base, prefix, ["data", name[..2], name]);
      assert [r] + ["data", name[..2], name] == [r, "data", name[..2], name];
      assert ["data", name[..2], name][1..] == [name[..2], name];
    } else {
      BuiltPath(base, prefix, [t, name]);
      assert [r] + [t, name] == [r, t, name] && [t, name][1..] == [name];
    }
  }

  lemma NamesAreClean(t: string, name: string)
    requires ValidTarget(t, name)
    ensures RepoPrefix.Clean(["data", name]) && RepoPrefix.Clean(["config"]) && RepoPrefix.Clean([t, name])
    ensures |name| >= 2 ==> RepoPrefix.Clean(["data", name[..2], name])
  {
    HexIsClean(name);
    assert CleanSegment(t) && CleanSegment("data") && CleanSegment("config");
  }

  lemma BuiltPath(base: string, prefix: seq<string>, names: seq<string>)
    requires base != "" && RepoPrefix.Clean(prefix) && RepoPrefix.Clean(names) && names != []
    ensures JoinPath([RepoPathString(base, Join(prefix))] + names)
         == PathString(Rooted(base), PathSegs(base) + (prefix + names))
    ensures prefix + names == prefix + [names[0]] + names[1..]
  {
    hide RepoPathString, PathSegs, PathString, Rooted, RepoPrefix.Clean, JoinPath;
    RepoPathIs(base, prefix);
    JoinPathAppends(RepoPathString(base, Join(prefix)), names);
    AppendAssoc(PathSegs(base), prefix, names);
    assert [names[0]] + names[1..] == names;
    AppendAssoc(prefix, [names[0]], names[1..]);
  }

  // ----- Repositories do not meet

  /** A repository prefix as the middleware cuts it: no segment is an API segment. */
  predicate IsRepo(prefix: seq<string>) {
    RepoPrefix.Clean(prefix) && forall i :: 0 <= i < |prefix| ==> prefix[i] !in KNOWN_SEGMENTS
  }

  lemma AtElements(p: Path, t: string, rest: Path)
    ensures forall i :: 0 <= i < |p| ==> At(p, t, rest)[i] == p[i]
    ensures At(p, t, rest)[|p|] == t
  {
  }

  /** The first API segment of a path tells where the prefix ends. */
  lemma PrefixIsDetermined(p: Path, t: string, rest: Path, q: Path, u: string, rest2: Path)
    requires IsRepo(p) && IsRepo(q) && t in KNOWN_SEGMENTS && u in KNOWN_SEGMENTS
    ensures At(p, t, rest) == At(q, u, rest2) <==> p == q && t == u && rest == rest2
  {
    var a, b := At(p, t, rest), At(q, u, rest2);
    if a == b {
      AtElements(p, t, rest);
      AtElements(q, u, rest2);
      assert a[|p|] == t && b[|q|] == u;
      assert a[..|p|] == p && b[..|q|] == q;
      AtInjective(p, t, rest, u, rest2);
    }
  }

  /** Distinct (prefix, type, name) have distinct paths, no flat path is the path of another blob,
      no blob path is a config path, and distinct prefixes have distinct config paths. */
  lemma LayoutIsInjective(base: string, p: seq<string>, t: string, name: string,
                          q: seq<string>, u: string, other: string)
    requires base != "" && IsRepo(p) && IsRepo(q) && ValidTarget(t, name) && ValidTarget(u, other)
    ensures var pre, qre := Join(p), Join(q);
      && (BlobPathString(base, pre, t, name) == BlobPathString(base, qre, u, other) <==> (p, t, name) == (q, u, other))
      && (FlatPathString(base, pre, name) == BlobPathString(base, qre, u, other) <==>
            p == q && u == "data" && name == other && |name| == 1)
      && BlobPathString(base, pre, t, name) != ConfigPathString(base, qre)
      && (ConfigPathString(base, pre) == ConfigPathString(base, qre) <==> p == q)
  {
    hide BlobPathString, FlatPathString, ConfigPathString, PathString, PathSegs, Rooted, IsRepo, RepoPrefix.Clean;
    TargetsAreClean(p, t, name);
    TargetsAreClean(q, u, other);
    PathStrings(base, p, t, name);
    PathStrings(base, q, u, other);
    var r, s := Place(t, name), Place(u, other);
    assert p + ["config"] == At(p, "config", []) && q + ["config"] == At(q, "config", []);
    PrefixIsDetermined(p, t, r, q, u, s);
    PrefixIsDetermined(p, "data", [name], q, u, s);
    PrefixIsDetermined(p, t, r, q, "config", []);
    PrefixIsDetermined(p, "config", [], q, "config", []);
    SameString(base, BlobPath(p, t, name), BlobPath(q, u, other));
    SameString(base, FlatPath(p, name), BlobPath(q, u, other));
    SameString(base, BlobPath(p, t, name), q + ["config"]);
    SameString(base, p + ["config"], q + ["config"]);
    assert r[|r| - 1] == name && s[|s| - 1] == other;
  }

  lemma TargetsAreClean(p: seq<string>, t: string, name: string)
    requires IsRepo(p) && ValidTarget(t, name)
    ensures RepoPrefix.Clean(p) && RepoPrefix.Clean(BlobPath(p, t, name)) && RepoPrefix.Clean(FlatPath(p, name))
    ensures RepoPrefix.Clean(p + ["config"])
  {
    HexIsClean(name);
    assert CleanSegment(t) && CleanSegment("data") && CleanSegment("config");
  }

  lemma SameString(base: string, a: seq<string>, b: seq<string>)
    requires RepoPrefix.Clean(a) && RepoPrefix.Clean(b)
    ensures PathString(Rooted(base), PathSegs(base) + a) == PathString(Rooted(base), PathSegs(base) + b) <==> a == b
  {
    var segs := PathSegs(base);
    PathSegsNormal(base);
    CleanIsNormal(a, segs, Rooted(base));
    CleanIsNormal(b, segs, Rooted(base));
    SegsOfPathString(segs + a, Rooted(base));
    SegsOfPathString(segs + b, Rooted(base));
    assert (segs + a)[|segs|..] == a && (segs + b)[|segs|..] == b;
  }

  /** The directory of a type holds no repository, and the last element of a blob's path is its name. */
  lemma TypeDirectoriesHoldNoRepository(p: seq<string>, q: seq<string>, t: string, name: string)
    requires IsRepo(p) && IsRepo(q) && ValidTarget(t, name)
    ensures !(At(p, t, []) <= q)
    ensures NameOf(BlobPath(p, t, name)) == name
  {
    AtElements(p, t, []);
  }

  /** All that belongs to a repository is as it was. */
  ghost predicate SameContent(tree: Tree, tree': Tree, p: Path) {
    forall t, rest :: t in KNOWN_SEGMENTS ==> SameAt(tree, tree', At(p, t, rest))
  }

  /** All but its config. */
  ghost predicate SameBlobs(tree: Tree, tree': Tree, p: Path) {
    forall t, rest :: t in BLOB_TYPES ==> SameAt(tree, tree', At(p, t, rest))
  }

  lemma OneChangeIsOutside(tree: Tree, tree': Tree, q: Path, t: string, rest: Path, p: Path)
    requires IsRepo(p) && IsRepo(q) && p != q && t in KNOWN_SEGMENTS
    requires forall x :: x != At(q, t, rest) ==> SameAt(tree, tree', x)
    ensures SameContent(tree, tree', p)
  {
    forall u, r | u in KNOWN_SEGMENTS
      ensures SameAt(tree, tree', At(p, u, r))
    {
      PrefixIsDetermined(p, u, r, q, t, rest);
    }
  }

  /** An operation changes the tree at one path at most, whatever the tree looks like. */
  lemma ChangedPlace(tree: Tree, q: Path, op: Op) returns (t: string, rest: Path)
    requires Admissible(op)
    ensures t in KNOWN_SEGMENTS
    ensures forall x :: x != At(q, t, rest) ==> SameAt(tree, Step(tree, q, op).0, x)
  {
    t := op.t;
    if op.Save? {
      rest := Place(op.t, op.name);
      var p := BlobPath(q, op.t, op.name);
      if IsDir(tree, Parent(p)) {
        assert Parent(p) != [] && MkdirAllResult(tree, Parent(p), {}) == (tree, true);
      }
    } else if op.Delete? {
      rest := if BlobPath(q, op.t, op.name) in tree || !HasFallback(op.t, op.name)
          then Place(op.t, op.name) else [op.name];
    } else {
      rest := [];
    }
  }

  /** An operation on one repository leaves everything of every other repository as it is, although
      the directories of one may lie inside those of another, and whatever the first looks like. */
  lemma OperationsAreIsolated(tree: Tree, q: Path, op: Op, p: Path, s: Simple)
    requires IsRepo(p) && IsRepo(q) && p != q && Admissible(op) && StandsFor(tree, p, s)
    ensures StandsFor(Step(tree, q, op).0, p, s)
    ensures SameContent(tree, Step(tree, q, op).0, p)
  {
    hide Step, IsRepo, Admissible, StandsFor;
    var t, rest := ChangedPlace(tree, q, op);
    OneChangeIsOutside(tree, Step(tree, q, op).0, q, t, rest, p);
    SameContentStandsFor(tree, Step(tree, q, op).0, p, s);
  }

  lemma SameContentStandsFor(tree: Tree, tree': Tree, p: Path, s: Simple)
    requires SameContent(tree, tree', p) && StandsFor(tree, p, s)
    ensures StandsFor(tree', p, s)
  {
    assert SameBlobs(tree, tree', p);
    SameShape(tree, tree', p);
    forall t, name | t in BLOB_TYPES
      ensures Lookup(tree', p, t, name) == Lookup(tree, p, t, name)
      ensures Sharded(tree', p, name) == Sharded(tree, p, name) && Open(tree', p, name) == Open(tree, p, name)
    {
      SameLookup(tree, tree', p, t, name);
    }
    SameTemps(tree, tree', p, s.temps);
    hide Shape, TempsAgree, Lookup, Sharded, Open, ValidBlobName;
    assert "data" in BLOB_TYPES;
  }

  lemma SameLookup(tree: Tree, tree': Tree, p: Path, t: string, name: string)
    requires SameBlobs(tree, tree', p) && t in BLOB_TYPES
    ensures Lookup(tree', p, t, name) == Lookup(tree, p, t, name)
    ensures Sharded(tree', p, name) == Sharded(tree, p, name) && Open(tree', p, name) == Open(tree, p, name)
    ensures IsFile(tree', BlobPath(p, t, name)) == IsFile(tree, BlobPath(p, t, name))
    ensures IsFile(tree', FlatPath(p, name)) == IsFile(tree, FlatPath(p, name))
  {
    assert SameAt(tree, tree', BlobPath(p, t, name)) && SameAt(tree, tree', FlatPath(p, name));
    assert SameAt(tree, tree', BlobPath(p, "data", name));
  }

  lemma SameTemps(tree: Tree, tree': Tree, p: Path, temps: map<(string, Path), nat>)
    requires SameContent(tree, tree', p) && TempsAgree(tree, p, temps)
    ensures TempsAgree(tree', p, temps)
  {
    forall t, rest
      ensures TempAt(tree', p, t, rest) == TempAt(tree, p, t, rest)
      ensures TempAt(tree, p, t, rest) ==> SameAt(tree, tree', At(p, t, rest))
    {
      assert t in KNOWN_SEGMENTS ==> SameAt(tree, tree', At(p, t, rest));
    }
  }

  lemma SameShape(tree: Tree, tree': Tree, p: Path)
    requires SameBlobs(tree, tree', p) && Shape(tree, p)
    ensures Shape(tree', p)
  {
    forall name | HasFallback("data", name)
      ensures !(IsFile(tree', BlobPath(p, "data", name)) && IsFile(tree', FlatPath(p, name)))
    {
      SameLookup(tree, tree', p, "data", name);
    }
    forall x, name | At(p, "data", [x, name]) in tree'
      ensures Open(tree', p, x)
    {
      assert SameAt(tree, tree', At(p, "data", [x, name])) && SameAt(tree, tree', At(p, "data", [x]));
      assert Open(tree, p, x);
    }
    forall t | t in BLOB_TYPES
      ensures IsDir(tree', At(p, t, []))
    {
      assert SameAt(tree, tree', At(p, t, [])) && IsDir(tree, At(p, t, []));
    }
    hide OnePlace, ShardsAreDirs, TypeDirsOk, EntryOk;
    forall t, rest | t in BLOB_TYPES && rest != [] && At(p, t, rest) in tree'
      ensures EntryOk(t, rest, tree'[At(p, t, rest)])
    {
      assert SameAt(tree, tree', At(p, t, rest));
    }
  }

  // ----- Deleting a repository

  /** Deleting repository p empties p and the repositories whose prefix extends p, and leaves every
      other one as it was: q keeps its blobs exactly when p is no prefix of q, or q had none. */
  lemma DeleteRepoReaches(tree: Tree, p: Path, q: Path)
    requires IsRepo(p) && IsRepo(q)
    ensures
      (forall t, name :: ValidTarget(t, name) ==>
         Lookup(RemoveAll(tree, p), q, t, name) == Lookup(tree, q, t, name)) <==>
      (p <= q ==> forall t, name :: ValidTarget(t, name) ==> Lookup(tree, q, t, name) == None)
  {
    forall t, name | ValidTarget(t, name)
      ensures Lookup(RemoveAll(tree, p), q, t, name) == if p <= q then None else Lookup(tree, q, t, name)
    {
      DeleteReachesTarget(tree, p, q, t, name);
    }
  }

  lemma DeleteReachesTarget(tree: Tree, p: Path, q: Path, t: string, name: string)
    requires IsRepo(p) && IsRepo(q) && ValidTarget(t, name)
    ensures Lookup(RemoveAll(tree, p), q, t, name) == if p <= q then None else Lookup(tree, q, t, name)
  {
    BelowRepo(p, q, t, Place(t, name));
    BelowRepo(p, q, "data", [name]);
  }

  /** Prefix p covers a path below a type directory of q exactly when it covers q. */
  lemma BelowRepo(p: Path, q: Path, t: string, rest: Path)
    requires IsRepo(p) && t in KNOWN_SEGMENTS
    ensures p <= At(q, t, rest) <==> p <= q
  {
    var a := At(q, t, rest);
    AtElements(q, t, rest);
    if p <= a && |p| <= |q| {
      assert p == a[..|p|] == q[..|p|];
    }
  }
}
