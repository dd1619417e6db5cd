/**
 The proof that every sequence of requests to a repository is answered as a simple store would answer
 it: a first-write-wins map, with what else the answers depend on (which blobs lie in shards, which
 shards are there, which temporary files were left). The store, its relation to a tree, and the
 refinement for the filesystem backend; NfsBackend refines the same store, and PlainStore says when
 it is the map alone.
 */
module SimpleStore {
  import opened Prelude
  import opened MapSum
  import opened BlobNames
  import opened FileTree
  import opened FileBackend
  import opened BlobStore
  import opened BlobListing

  // ----- The simple store

  /** A map in which the first value of a name stays until it is deleted. */
  type Blobs = map<(string, string), Bytes>

  /** What the answers depend on: the blobs; which data blobs are in shards; which shard directories
      are there; and the temporary files that were left behind, with their sizes. */
  datatype Simple = Simple(blobs: Blobs, sharded: set<string>, open: set<string>, temps: map<(string, Path), nat>)

  function Find(m: Blobs, t: string, name: string): Option<Bytes> {
    if (t, name) in m then Some(m[(t, name)]) else None
  }

  predicate TempAt(tree: Tree, repo: Path, t: string, rest: Path) {
    t in BLOB_TYPES && rest != [] && TempName(NameOf(rest)) && IsFile(tree, At(repo, t, rest))
  }

  ghost predicate BlobsAgree(tree: Tree, repo: Path, blobs: Blobs) {
    && (forall k :: k in blobs ==> ValidTarget(k.0, k.1))
    && (forall t, name :: ValidTarget(t, name) ==> Lookup(tree, repo, t, name) == Find(blobs, t, name))
  }

  ghost predicate LayoutAgrees(tree: Tree, repo: Path, sharded: set<string>, open: set<string>) {
    && (forall name :: name in sharded <==> Sharded(tree, repo, name))
    && (forall x :: x in open <==> Open(tree, repo, x))
  }

  ghost predicate TempsAgree(tree: Tree, repo: Path, temps: map<(string, Path), nat>) {
    && (forall t, rest :: (t, rest) in temps <==> TempAt(tree, repo, t, rest))
    && (forall t, rest :: (t, rest) in temps ==> temps[(t, rest)] == |tree[At(repo, t, rest)].content|)
  }

  /** The tree is well shaped and holds exactly what s says. */
  ghost predicate StandsFor(tree: Tree, repo: Path, s: Simple) {
    && Shape(tree, repo)
    && BlobsAgree(tree, repo, s.blobs)
    && LayoutAgrees(tree, repo, s.sharded, s.open)
    && TempsAgree(tree, repo, s.temps)
  }

  /** The keys under which something lies below a type directory: with its name, and with its place. */
  function NamesInside(tree: Tree, repo: Path): set<(string, string)> {
    set p | p in tree && |p| > |repo| + 1 && repo <= p :: (p[|repo|], NameOf(p))
  }

  function PlacesInside(tree: Tree, repo: Path): set<(string, Path)> {
    set p | p in tree && |p| > |repo| + 1 && repo <= p :: (p[|repo|], p[|repo| + 1..])
  }

  lemma InsideKeys(tree: Tree, repo: Path, t: string, rest: Path)
    requires rest != [] && At(repo, t, rest) in tree
    ensures (t, NameOf(rest)) in NamesInside(tree, repo) && (t, rest) in PlacesInside(tree, repo)
  {
    var p := At(repo, t, rest);
    assert p[|repo|] == t && p[|repo| + 1..] == rest && NameOf(p) == NameOf(rest);
  }

  function BlobsIn(tree: Tree, repo: Path): Blobs {
    map k | k in NamesInside(tree, repo) && ValidTarget(k.0, k.1) && Lookup(tree, repo, k.0, k.1).Some? ::
      Lookup(tree, repo, k.0, k.1).value
  }

  function TempsIn(tree: Tree, repo: Path): map<(string, Path), nat> {
    map k | k in PlacesInside(tree, repo) && TempAt(tree, repo, k.0, k.1) :: |tree[At(repo, k.0, k.1)].content|
  }

  /** The simple store that a tree stands for. */
  function Abstract(tree: Tree, repo: Path): Simple {
    Simple(BlobsIn(tree, repo),
           set k | k in NamesInside(tree, repo) && Sharded(tree, repo, k.1) :: k.1,
           set k | k in NamesInside(tree, repo) && Open(tree, repo, k.1) :: k.1,
           TempsIn(tree, repo))
  }

  /** Every well-shaped tree stands for one. */
  lemma EveryShapeStandsFor(tree: Tree, repo: Path)
    requires Shape(tree, repo)
    ensures StandsFor(tree, repo, Abstract(tree, repo))
  {
    hide Shape, NamesInside, PlacesInside, Lookup, Sharded, Open, TempAt, ValidTarget, At;
    assert BlobsAgree(tree, repo, BlobsIn(tree, repo)) by {
      forall t, name | ValidTarget(t, name)
        ensures Lookup(tree, repo, t, name) == Find(BlobsIn(tree, repo), t, name)
      {
        NameIsInside(tree, repo, t, name);
      }
    }
    var s := Abstract(tree, repo);
    assert LayoutAgrees(tree, repo, s.sharded, s.open) by {
      forall name
        ensures name in s.sharded <==> Sharded(tree, repo, name)
        ensures name in s.open <==> Open(tree, repo, name)
      {
        NameIsInside(tree, repo, "data", name);
        assert ("data", name).1 == name;
      }
    }
    assert TempsAgree(tree, repo, TempsIn(tree, repo)) by {
      forall t, rest
        ensures (t, rest) in TempsIn(tree, repo) <==> TempAt(tree, repo, t, rest)
      {
        PlaceIsInside(tree, repo, t, rest);
      }
    }
  }

  lemma PlaceIsInside(tree: Tree, repo: Path, t: string, rest: Path)
    ensures TempAt(tree, repo, t, rest) ==> (t, rest) in PlacesInside(tree, repo)
  {
    if TempAt(tree, repo, t, rest) {
      InsideKeys(tree, repo, t, rest);
    }
  }

  lemma NameIsInside(tree: Tree, repo: Path, t: string, name: string)
    ensures Lookup(tree, repo, t, name).Some? ==> (t, name) in NamesInside(tree, repo)
    ensures Sharded(tree, repo, name) ==> ("data", name) in NamesInside(tree, repo)
    ensures Open(tree, repo, name) ==> ("data", name) in NamesInside(tree, repo)
  {
    if BlobPath(repo, t, name) in tree {
      InsideKeys(tree, repo, t, Place(t, name));
    }
    if BlobPath(repo, "data", name) in tree {
      InsideKeys(tree, repo, "data", Place("data", name));
    }
    if FlatPath(repo, name) in tree {
      InsideKeys(tree, repo, "data", [name]);
    }
  }

  // ----- What the changes of the operations do to it

  function Stored(s: Simple, t: string, name: string, data: Bytes): Simple {
    s.(blobs := s.blobs[(t, name) := data], sharded := if HasFallback(t, name) then s.sharded + {name} else s.sharded)
  }

  function Removed(s: Simple, t: string, name: string): Simple {
    s.(blobs := s.blobs - {(t, name)}, sharded := if t == "data" then s.sharded - {name} else s.sharded)
  }

  lemma TempsAfterChange(tree: Tree, tree': Tree, repo: Path, t: string, rest: Path, temps: map<(string, Path), nat>)
    requires TempsAgree(tree, repo, temps) && OneChange(tree, tree', repo, t, rest)
    requires rest != [] && !TempName(NameOf(rest))
    ensures TempsAgree(tree', repo, temps)
  {
    hide TempName;
    forall u, r
      ensures TempAt(tree', repo, u, r) <==> TempAt(tree, repo, u, r)
      ensures TempAt(tree, repo, u, r) ==> SameAt(tree, tree', At(repo, u, r))
    {
      assert (u, r) != (t, rest) ==> SameAt(tree, tree', At(repo, u, r));
    }
  }

  lemma BlobsAfterWrite(tree: Tree, repo: Path, s: Simple, t: string, name: string, data: Bytes)
    requires Shape(tree, repo) && BlobsAgree(tree, repo, s.blobs) && ValidTarget(t, name)
    requires Lookup(tree, repo, t, name).None? && Reachable(tree, repo, t, name)
    ensures BlobsAgree(tree[BlobPath(repo, t, name) := File(data)], repo, Stored(s, t, name, data).blobs)
  {
    hide Shape, Lookup, ValidTarget, Place;
    forall u, other | ValidTarget(u, other)
      ensures Lookup(tree[BlobPath(repo, t, name) := File(data)], repo, u, other)
          == Find(Stored(s, t, name, data).blobs, u, other)
    {
      AfterWrite(tree, repo, t, name, data, u, other);
    }
  }

  lemma LayoutAfterWrite(tree: Tree, repo: Path, s: Simple, t: string, name: string, data: Bytes)
    requires Shape(tree, repo) && LayoutAgrees(tree, repo, s.sharded, s.open) && ValidTarget(t, name)
    requires Lookup(tree, repo, t, name).None? && Reachable(tree, repo, t, name)
    ensures LayoutAgrees(tree[BlobPath(repo, t, name) := File(data)], repo,
        Stored(s, t, name, data).sharded, Stored(s, t, name, data).open)
  {
    hide Shape, Lookup, Sharded, Open, ValidTarget, Place;
    var tree' := tree[BlobPath(repo, t, name) := File(data)];
    forall other
      ensures other in Stored(s, t, name, data).sharded <==> Sharded(tree', repo, other)
      ensures other in Stored(s, t, name, data).open <==> Open(tree', repo, other)
    {
      AfterWrite(tree, repo, t, name, data, t, other);
    }
  }

  lemma WriteKeeps(tree: Tree, repo: Path, s: Simple, t: string, name: string, data: Bytes)
    requires StandsFor(tree, repo, s) && ValidTarget(t, name)
    requires Lookup(tree, repo, t, name).None? && Reachable(tree, repo, t, name)
    ensures StandsFor(tree[BlobPath(repo, t, name) := File(data)], repo, Stored(s, t, name, data))
  {
    var tree' := tree[BlobPath(repo, t, name) := File(data)];
    ChangedAt(tree, tree', repo, t, Place(t, name));
    BlobNamesAreNotTemp(name);
    PlaceNames(t, name, t, name);
    WriteKeepsShape(tree, tree', repo, t, name);
    TempsAfterChange(tree, tree', repo, t, Place(t, name), s.temps);
    hide Shape, BlobsAgree, LayoutAgrees, TempsAgree;
    BlobsAfterWrite(tree, repo, s, t, name, data);
    LayoutAfterWrite(tree, repo, s, t, name, data);
  }

  lemma BlobsAfterRemove(tree: Tree, repo: Path, s: Simple, t: string, name: string)
    requires Shape(tree, repo) && BlobsAgree(tree, repo, s.blobs) && ValidTarget(t, name)
    requires Lookup(tree, repo, t, name).Some?
    ensures BlobsAgree(tree - {At(repo, t, PlaceTaken(tree, repo, t, name))}, repo, Removed(s, t, name).blobs)
  {
    hide Shape, Lookup, ValidTarget, Place;
    forall u, other | ValidTarget(u, other)
      ensures Lookup(tree - {At(repo, t, PlaceTaken(tree, repo, t, name))}, repo, u, other)
          == Find(Removed(s, t, name).blobs, u, other)
    {
      AfterRemove(tree, repo, t, name, u, other);
    }
  }

  lemma LayoutAfterRemove(tree: Tree, repo: Path, s: Simple, t: string, name: string)
    requires Shape(tree, repo) && LayoutAgrees(tree, repo, s.sharded, s.open) && ValidTarget(t, name)
    requires Lookup(tree, repo, t, name).Some?
    ensures LayoutAgrees(tree - {At(repo, t, PlaceTaken(tree, repo, t, name))}, repo,
        Removed(s, t, name).sharded, Removed(s, t, name).open)
  {
    hide Shape, Lookup, Sharded, Open, ValidTarget, Place;
    var tree' := tree - {At(repo, t, PlaceTaken(tree, repo, t, name))};
    forall other
      ensures other in Removed(s, t, name).sharded <==> Sharded(tree', repo, other)
      ensures other in Removed(s, t, name).open <==> Open(tree', repo, other)
    {
      AfterRemove(tree, repo, t, name, t, other);
    }
  }

  lemma RemoveKeeps(tree: Tree, repo: Path, s: Simple, t: string, name: string)
    requires StandsFor(tree, repo, s) && ValidTarget(t, name) && Lookup(tree, repo, t, name).Some?
    ensures StandsFor(tree - {At(repo, t, PlaceTaken(tree, repo, t, name))}, repo, Removed(s, t, name))
  {
    var place := PlaceTaken(tree, repo, t, name);
    var tree' := tree - {At(repo, t, place)};
    ChangedAt(tree, tree', repo, t, place);
    RemoveKeepsShape(tree, tree', repo, t, name);
    hide Shape, BlobsAgree, LayoutAgrees, TempsAgree;
    TempsAfterChange(tree, tree', repo, t, place, s.temps);
    BlobsAfterRemove(tree, repo, s, t, name);
    LayoutAfterRemove(tree, repo, s, t, name);
  }

  /** A shard directory comes or goes. */
  lemma DirectoryKeeps(tree: Tree, tree': Tree, repo: Path, s: Simple, x: string)
    requires StandsFor(tree, repo, s) && OneChange(tree, tree', repo, "data", [x]) && HexPair(x)
    requires !IsFile(tree, At(repo, "data", [x])) && !IsFile(tree', At(repo, "data", [x]))
    requires Open(tree', repo, x) || ShardEmpty(tree, repo, x)
    ensures StandsFor(tree', repo, s.(open := if Open(tree', repo, x) then s.open + {x} else s.open - {x}))
  {
    forall u, name
      ensures IsFile(tree', BlobPath(repo, u, name)) == IsFile(tree, BlobPath(repo, u, name))
      ensures IsFile(tree', FlatPath(repo, name)) == IsFile(tree, FlatPath(repo, name))
      ensures Lookup(tree', repo, u, name) == Lookup(tree, repo, u, name)
    {
      DirectoryLeaves(tree, tree', repo, x, u, name);
    }
    hide Lookup, HexPair, ValidTarget, TempName;
    DirectoryKeepsShape(tree, tree', repo, x);
    TempsAfterDirectory(tree, tree', repo, x, s.temps);
    hide Shape, TempsAgree, HasFallback, BlobPath;
    forall other | other != x
      ensures Open(tree', repo, other) <==> Open(tree, repo, other)
    {
      OpenAfterChange(tree, tree', repo, "data", [x], other);
    }
  }

  lemma TempsAfterDirectory(tree: Tree, tree': Tree, repo: Path, x: string, temps: map<(string, Path), nat>)
    requires TempsAgree(tree, repo, temps) && OneChange(tree, tree', repo, "data", [x]) && HexPair(x)
    ensures TempsAgree(tree', repo, temps)
  {
    assert !TempName(x);
    TempsAfterChange(tree, tree', repo, "data", [x], temps);
  }

  /** A temporary file that was left behind goes. */
  lemma TempGoneKeeps(tree: Tree, repo: Path, s: Simple, t: string, rest: Path)
    requires StandsFor(tree, repo, s) && t in BLOB_TYPES && rest != [] && TempName(NameOf(rest))
    requires At(repo, t, rest) in tree ==> tree[At(repo, t, rest)].File?
    ensures StandsFor(tree - {At(repo, t, rest)}, repo, s.(temps := s.temps - {(t, rest)}))
  {
    var tree' := tree - {At(repo, t, rest)};
    ChangedAt(tree, tree', repo, t, rest);
    ShapeAfterFile(tree, tree', repo, t, rest);
    hide Shape;
    TempsWithout(tree, tree', repo, t, rest, s.temps);
    hide TempsAgree;
    forall u, name | ValidBlobName(name)
      ensures Lookup(tree', repo, u, name) == Lookup(tree, repo, u, name)
      ensures IsFile(tree', BlobPath(repo, u, name)) == IsFile(tree, BlobPath(repo, u, name))
    {
      TempLeaves(tree, tree', repo, t, rest, u, name);
    }
    forall x
      ensures Open(tree', repo, x) <==> Open(tree, repo, x)
    {
      OpenAfterChange(tree, tree', repo, t, rest, x);
    }
  }

  lemma TempLeaves(tree: Tree, tree': Tree, repo: Path, t: string, rest: Path, u: string, name: string)
    requires OneChange(tree, tree', repo, t, rest) && rest != [] && TempName(NameOf(rest)) && ValidBlobName(name)
    ensures Lookup(tree', repo, u, name) == Lookup(tree, repo, u, name)
    ensures IsFile(tree', BlobPath(repo, u, name)) == IsFile(tree, BlobPath(repo, u, name))
  {
    BlobNamesAreNotTemp(name);
    assert NameOf(Place(u, name)) == NameOf([name]) == name;
    LookupAfterChange(tree, tree', repo, t, rest, u, name);
  }

  lemma TempsWithout(tree: Tree, tree': Tree, repo: Path, t: string, rest: Path, temps: map<(string, Path), nat>)
    requires TempsAgree(tree, repo, temps) && OneChange(tree, tree', repo, t, rest) && At(repo, t, rest) !in tree'
    ensures TempsAgree(tree', repo, temps - {(t, rest)})
  {
    hide TempName;
    forall u, r
      ensures (u, r) in temps - {(t, rest)} <==> TempAt(tree', repo, u, r)
      ensures TempAt(tree', repo, u, r) ==> SameAt(tree, tree', At(repo, u, r))
    {
      assert (u, r) != (t, rest) ==> SameAt(tree, tree', At(repo, u, r));
    }
  }

  /** Something lies in the shard directory x. */
  predicate Occupied(s: Simple, x: string) {
    || (exists name :: name in s.sharded && |name| >= 2 && name[..2] == x)
    || (exists k :: k in s.temps && k.0 == "data" && |k.1| == 2 && k.1[0] == x)
  }

  lemma OccupiedIsNotEmpty(tree: Tree, repo: Path, s: Simple, x: string)
    requires StandsFor(tree, repo, s)
    ensures ShardEmpty(tree, repo, x) <==> !Occupied(s, x)
  {
    hide StandsFor;
    if name :| At(repo, "data", [x, name]) in tree {
      EntryOccupies(tree, repo, s, x, name);
    }
    if name :| name in s.sharded && |name| >= 2 && name[..2] == x {
      ShardedIsThere(tree, repo, s, name);
    }
    if k :| k in s.temps && k.0 == "data" && |k.1| == 2 && k.1[0] == x {
      TempIsThere(tree, repo, s, k.1);
      assert k.1 == [x, k.1[1]];
    }
  }

  lemma EntryOccupies(tree: Tree, repo: Path, s: Simple, x: string, name: string)
    requires StandsFor(tree, repo, s) && At(repo, "data", [x, name]) in tree
    ensures Occupied(s, x)
  {
    assert EntryOk("data", [x, name], tree[At(repo, "data", [x, name])]);
    if TempName(name) {
      assert TempAt(tree, repo, "data", [x, name]);
      assert ("data", [x, name]) in s.temps;
      assert ("data", [x, name]).1[0] == x;
    } else {
      assert Place("data", name) == [x, name];
      assert Sharded(tree, repo, name);
    }
  }

  lemma ShardedIsThere(tree: Tree, repo: Path, s: Simple, name: string)
    requires StandsFor(tree, repo, s) && name in s.sharded && |name| >= 2
    ensures At(repo, "data", [name[..2], name]) in tree
  {
    assert Sharded(tree, repo, name);
  }

  lemma TempIsThere(tree: Tree, repo: Path, s: Simple, rest: Path)
    requires StandsFor(tree, repo, s) && ("data", rest) in s.temps
    ensures At(repo, "data", rest) in tree
  {
    assert TempAt(tree, repo, "data", rest);
  }

  // ----- Operations on the tree and on the simple store

  datatype Op =
    | Save(t: string, name: string, body: Option<Bytes>, fault: Fault)
    | StatOp(t: string, name: string)
    | Get(t: string, name: string)
    | Delete(t: string, name: string)
    | List(t: string)

  /** A listing is answered in some order, so its entries are a multiset. */
  datatype Reply =
    | Done | Size(size: nat) | Directory | Body(data: Bytes) | Listing(entries: multiset<BlobInfo>) | Missing | Failed

  /** Every operation that the handlers let through. */
  predicate Admissible(op: Op) {
    if op.List? then op.t in BLOB_TYPES else ValidTarget(op.t, op.name)
  }

  function FailureReply(e: FsError): Reply {
    if e == NotFound then Missing else Failed
  }

  function StatReply(r: Result<Stat, FsError>): Reply {
    match r
    case Ok(FileSize(n)) => Size(n)
    case Ok(DirectorySize) => Directory
    case Err(e) => FailureReply(e)
  }

  function BodyReply(r: Result<Bytes, FsError>): Reply {
    match r
    case Ok(data) => Body(data)
    case Err(e) => FailureReply(e)
  }

  function ErrorReply(err: Option<FsError>): Reply {
    match err
    case None => Done
    case Some(e) => FailureReply(e)
  }

  /** The bytes that a write without a fault leaves. */
  function Written(body: Option<Bytes>, fault: Fault): Option<Bytes> {
    if fault == NoFault then body else None
  }

  /** An operation of the filesystem backend. */
  ghost function Step(tree: Tree, repo: Path, op: Op): (Tree, Reply) {
    match op
    case Save(t, name, body, fault) =>
      var (tree', err) := SaveBlobResult(tree, repo, t, name, Written(body, fault));
      (tree', ErrorReply(err))
    case StatOp(t, name) => (tree, StatReply(StatBlobResult(tree, repo, t, name)))
    case Get(t, name) => (tree, BodyReply(GetBlobResult(tree, repo, t, name)))
    case Delete(t, name) =>
      var (tree', err) := DeleteBlobResult(tree, repo, t, name);
      (tree', ErrorReply(err))
    case List(t) =>
      var dir := At(repo, t, []);
      BelowIsBelow(tree, dir);
      (tree, if ValidPath(tree, dir) then Listing(Values(Infos(tree, dir, FilesBelow(tree, dir)))) else Failed)
  }

  /** The two file backends differ in three ways: NFS creates the shard directory that a name asks
      for, where the filesystem backend refuses the name; it never removes directories; and it
      lists only the shards with lowercase names. */
  datatype Kind = Filesystem | Nfs

  predicate Refused(kind: Kind, s: Simple, t: string, name: string) {
    kind.Filesystem? && HasFallback(t, name) && name[..2] !in s.open
  }

  predicate IsDirectory(s: Simple, t: string, name: string) {
    Collides(t, name) && name in s.open
  }

  /** The fixed place of the temporary file of an NFS write. */
  function TempPlace(t: string, name: string): Path {
    if HasFallback(t, name) then [name[..2], ".tmp-" + name] else [".tmp-" + name]
  }

  /** Before an NFS write stores its blob: the directory is made, and a temporary file that an
      earlier write of the name left is written over. */
  function Prepared(s: Simple, t: string, name: string, fault: Fault): Simple {
    s.(open := if HasFallback(t, name) then s.open + {name[..2]} else s.open,
       temps := if fault == AtCreate then s.temps else s.temps - {(t, TempPlace(t, name))})
  }

  function SimpleSave(kind: Kind, s: Simple, t: string, name: string, body: Option<Bytes>, fault: Fault)
      : (Simple, Reply)
  {
    if Refused(kind, s, t, name) || (kind.Nfs? && body.None?) then (s, Failed)
    else if (t, name) in s.blobs || IsDirectory(s, t, name) then (s, Done)
    else
      var ready := if kind.Nfs? then Prepared(s, t, name, fault) else s;
      match Written(body, fault)
      case None => (ready, Failed)
      case Some(data) => (Stored(ready, t, name, data), Done)
  }

  function SimpleDelete(kind: Kind, s: Simple, t: string, name: string): (Simple, Reply) {
    if Refused(kind, s, t, name) then (s, Failed)
    else if (t, name) in s.blobs then (Removed(s, t, name), Done)
    else if !IsDirectory(s, t, name) then (s, Missing)
    else if kind.Nfs? || Occupied(s, name) then (s, Failed)
    else (s.(open := s.open - {name}), Done)
  }

  /** What a listing of the kind of backend shows. */
  predicate Visible(kind: Kind, t: string, rest: Path) {
    rest != [] && (kind.Filesystem? || t != "data" || |rest| == 1 || IsShard(rest[0]))
  }

  function PlaceOf(s: Simple, t: string, name: string): Path {
    if t != "data" || name in s.sharded then Place(t, name) else [name]
  }

  function TempPlaces(kind: Kind, s: Simple, t: string): set<Path> {
    set k | k in s.temps && k.0 == t && Visible(kind, t, k.1) :: k.1
  }

  function BlobPlaces(kind: Kind, s: Simple, t: string): set<Path> {
    set k | k in s.blobs && k.0 == t && Visible(kind, t, PlaceOf(s, t, k.1)) :: PlaceOf(s, t, k.1)
  }

  /** One entry for every blob of the type, and one for every temporary file. */
  function Entries(kind: Kind, s: Simple, t: string): map<Path, BlobInfo> {
    (map r | r in TempPlaces(kind, s, t) :: BlobInfo(NameOf(r), s.temps[(t, r)]))
    + (map r | r in BlobPlaces(kind, s, t) :: BlobInfo(NameOf(r), |s.blobs[(t, NameOf(r))]|))
  }

  ghost function SimpleStep(kind: Kind, s: Simple, op: Op): (Simple, Reply) {
    match op
    case Save(t, name, body, fault) => SimpleSave(kind, s, t, name, body, fault)
    case StatOp(t, name) =>
      (s, if Refused(kind, s, t, name) then Failed
          else if (t, name) in s.blobs then Size(|s.blobs[(t, name)]|)
          else if IsDirectory(s, t, name) then Directory else Missing)
    case Get(t, name) =>
      (s, if Refused(kind, s, t, name) then Failed
          else if (t, name) in s.blobs then Body(s.blobs[(t, name)])
          else if IsDirectory(s, t, name) then Failed else Missing)
    case Delete(t, name) => SimpleDelete(kind, s, t, name)
    case List(t) => (s, Listing(Values(Entries(kind, s, t))))
  }

  // ----- One operation refines

  /** What StandsFor says of one target. */
  lemma TargetAgrees(tree: Tree, repo: Path, s: Simple, t: string, name: string)
    requires StandsFor(tree, repo, s) && ValidTarget(t, name)
    ensures Lookup(tree, repo, t, name) == Find(s.blobs, t, name)
    ensures Refused(Filesystem, s, t, name) <==> !Reachable(tree, repo, t, name)
    ensures Collides(t, name) && Reachable(tree, repo, t, name) ==> IsDirectory(s, t, name)
  {
    if Collides(t, name) {
      assert name[..2] == name;
    }
  }

  lemma SaveRefines(tree: Tree, repo: Path, s: Simple, op: Op)
    requires StandsFor(tree, repo, s) && op.Save? && Admissible(op)
    ensures Step(tree, repo, op).1 == SimpleStep(Filesystem, s, op).1
    ensures StandsFor(Step(tree, repo, op).0, repo, SimpleStep(Filesystem, s, op).0)
  {
    hide Shape, BlobsAgree, LayoutAgrees, TempsAgree, Lookup, Reachable, SaveBlobResult, Stored, ValidTarget;
    var t, name := op.t, op.name;
    TargetAgrees(tree, repo, s, t, name);
    SaveMeaning(tree, repo, t, name, Written(op.body, op.fault));
    if Lookup(tree, repo, t, name).None? && Reachable(tree, repo, t, name) && Written(op.body, op.fault).Some? {
      WriteKeeps(tree, repo, s, t, name, op.body.value);
    }
  }

  lemma DeleteRefines(tree: Tree, repo: Path, s: Simple, op: Op)
    requires StandsFor(tree, repo, s) && op.Delete? && Admissible(op)
    ensures Step(tree, repo, op).1 == SimpleStep(Filesystem, s, op).1
    ensures StandsFor(Step(tree, repo, op).0, repo, SimpleStep(Filesystem, s, op).0)
  {
    hide Shape, BlobsAgree, LayoutAgrees, TempsAgree, Lookup, Reachable;
    hide DeleteBlobResult, Removed, ValidTarget, Occupied;
    var t, name := op.t, op.name;
    TargetAgrees(tree, repo, s, t, name);
    DeleteMeaning(tree, repo, t, name);
    if Lookup(tree, repo, t, name).Some? {
      if Reachable(tree, repo, t, name) {
        RemoveKeeps(tree, repo, s, t, name);
      }
    } else if Collides(t, name) && Reachable(tree, repo, t, name) {
      OccupiedIsNotEmpty(tree, repo, s, name);
      if ShardEmpty(tree, repo, name) {
        CloseKeeps(tree, repo, s, name);
      }
    }
  }

  lemma CloseKeeps(tree: Tree, repo: Path, s: Simple, x: string)
    requires StandsFor(tree, repo, s) && ShardEmpty(tree, repo, x) && ValidTarget("data", x) && |x| == 2
    requires Reachable(tree, repo, "data", x)
    ensures StandsFor(tree - {At(repo, "data", [x])}, repo, s.(open := s.open - {x}))
  {
    hide StandsFor, ShardEmpty;
    BlobNamesAreNotTemp(x);
    assert x[..2] == x;
    var tree' := tree - {At(repo, "data", [x])};
    ChangedAt(tree, tree', repo, "data", [x]);
    DirectoryKeeps(tree, tree', repo, s, x);
  }

  lemma VisibleFiles(tree: Tree, repo: Path, s: Simple, kind: Kind, t: string, r: Path)
    requires StandsFor(tree, repo, s) && t in BLOB_TYPES && r != []
    ensures IsFile(tree, At(repo, t, r)) && Visible(kind, t, r) <==> r in Entries(kind, s, t)
    ensures r in Entries(kind, s, t) ==> Entries(kind, s, t)[r] == InfoOf(tree, At(repo, t, r))
  {
    hide StandsFor, TempPlaces, BlobPlaces, TempName, Visible;
    TempPlaceIs(tree, repo, s, kind, t, r);
    BlobPlaceIs(tree, repo, s, kind, t, r);
    assert NameOf(At(repo, t, r)) == NameOf(r);
  }

  lemma TempPlaceIs(tree: Tree, repo: Path, s: Simple, kind: Kind, t: string, r: Path)
    requires StandsFor(tree, repo, s) && t in BLOB_TYPES && r != []
    ensures r in TempPlaces(kind, s, t) <==>
      IsFile(tree, At(repo, t, r)) && Visible(kind, t, r) && TempName(NameOf(r))
    ensures r in TempPlaces(kind, s, t) ==> (t, r) in s.temps && s.temps[(t, r)] == |tree[At(repo, t, r)].content|
  {
    hide Shape, BlobsAgree, LayoutAgrees, Visible, TempName;
    assert (t, r) in s.temps <==> TempAt(tree, repo, t, r);
    assert (t, r).1 == r;
  }

  lemma BlobPlaceIs(tree: Tree, repo: Path, s: Simple, kind: Kind, t: string, r: Path)
    requires StandsFor(tree, repo, s) && t in BLOB_TYPES && r != []
    ensures r in BlobPlaces(kind, s, t) <==>
      IsFile(tree, At(repo, t, r)) && Visible(kind, t, r) && !TempName(NameOf(r))
    ensures r in BlobPlaces(kind, s, t) ==>
      (t, NameOf(r)) in s.blobs && s.blobs[(t, NameOf(r))] == tree[At(repo, t, r)].content
  {
    hide StandsFor, Visible, TempName, PlaceOf, IsFile, At;
    if r in BlobPlaces(kind, s, t) {
      var k :| k in s.blobs && k.0 == t && Visible(kind, t, PlaceOf(s, t, k.1)) && r == PlaceOf(s, t, k.1);
      StoredPlace(tree, repo, s, t, k.1);
    }
    if IsFile(tree, At(repo, t, r)) && Visible(kind, t, r) && !TempName(NameOf(r)) {
      FilePlace(tree, repo, s, t, r);
      assert (t, NameOf(r)).0 == t && (t, NameOf(r)).1 == NameOf(r);
    }
  }

  lemma StoredPlace(tree: Tree, repo: Path, s: Simple, t: string, name: string)
    requires StandsFor(tree, repo, s) && (t, name) in s.blobs
    ensures IsFile(tree, At(repo, t, PlaceOf(s, t, name)))
    ensures s.blobs[(t, name)] == tree[At(repo, t, PlaceOf(s, t, name))].content
    ensures NameOf(PlaceOf(s, t, name)) == name && !TempName(name)
  {
    assert ValidTarget((t, name).0, (t, name).1);
    BlobNamesAreNotTemp(name);
    PlaceNames(t, name, t, name);
    hide Shape, TempsAgree, ValidBlobName;
    assert Lookup(tree, repo, t, name) == Find(s.blobs, t, name);
    assert t == "data" ==> (name in s.sharded <==> Sharded(tree, repo, name));
  }

  lemma FilePlace(tree: Tree, repo: Path, s: Simple, t: string, r: Path)
    requires StandsFor(tree, repo, s) && t in BLOB_TYPES && r != []
    requires IsFile(tree, At(repo, t, r)) && !TempName(NameOf(r))
    ensures (t, NameOf(r)) in s.blobs && PlaceOf(s, t, NameOf(r)) == r
  {
    var name := NameOf(r);
    assert EntryOk(t, r, tree[At(repo, t, r)]);
    assert r == Place(t, name) || (t == "data" && r == [name]);
    assert Lookup(tree, repo, t, name) == Find(s.blobs, t, name);
    assert t == "data" ==> (name in s.sharded <==> Sharded(tree, repo, name));
  }

  lemma ListRefines(tree: Tree, repo: Path, s: Simple, t: string)
    requires StandsFor(tree, repo, s) && t in BLOB_TYPES
    requires AllBelow(tree, At(repo, t, []), FilesBelow(tree, At(repo, t, [])))
    ensures ValidPath(tree, At(repo, t, []))
    ensures Infos(tree, At(repo, t, []), FilesBelow(tree, At(repo, t, []))) == Entries(Filesystem, s, t)
  {
    var dir := At(repo, t, []);
    assert IsDir(tree, dir);
    BelowIsBelow(tree, dir);
    var infos, entries := Infos(tree, dir, FilesBelow(tree, dir)), Entries(Filesystem, s, t);
    hide *;
    forall r
      ensures r in infos <==> r in entries
      ensures r in entries ==> r in infos && entries[r] == infos[r]
    {
      EntryIs(tree, repo, s, t, r);
    }
    SameMaps(infos, entries);
  }

  lemma EntryIs(tree: Tree, repo: Path, s: Simple, t: string, r: Path)
    requires StandsFor(tree, repo, s) && t in BLOB_TYPES
    requires AllBelow(tree, At(repo, t, []), FilesBelow(tree, At(repo, t, [])))
    ensures var infos, entries := Infos(tree, At(repo, t, []), FilesBelow(tree, At(repo, t, []))),
        Entries(Filesystem, s, t);
      && (r in infos <==> r in entries)
      && (r in entries ==> r in infos && entries[r] == infos[r])
  {
    var dir := At(repo, t, []);
    BelowIsBelow(tree, dir);
    assert dir + r == At(repo, t, r);
    hide StandsFor, FilesBelow, Infos, Entries, InfoOf, IsFile, At;
    if r != [] {
      VisibleFiles(tree, repo, s, Filesystem, t, r);
    } else {
      RootIsNoEntry(Filesystem, s, t);
    }
  }

  lemma RootIsNoEntry(kind: Kind, s: Simple, t: string)
    ensures [] !in Entries(kind, s, t)
  {
  }

  lemma StatRefines(tree: Tree, repo: Path, s: Simple, t: string, name: string)
    requires StandsFor(tree, repo, s) && ValidTarget(t, name)
    ensures Step(tree, repo, StatOp(t, name)) == (tree, SimpleStep(Filesystem, s, StatOp(t, name)).1)
    ensures SimpleStep(Filesystem, s, StatOp(t, name)).0 == s
  {
    hide Shape, Lookup, Reachable, ValidTarget, StatBlobResult;
    TargetAgrees(tree, repo, s, t, name);
    StatMeaning(tree, repo, t, name);
  }

  lemma GetRefines(tree: Tree, repo: Path, s: Simple, t: string, name: string)
    requires StandsFor(tree, repo, s) && ValidTarget(t, name)
    ensures Step(tree, repo, Get(t, name)) == (tree, SimpleStep(Filesystem, s, Get(t, name)).1)
    ensures SimpleStep(Filesystem, s, Get(t, name)).0 == s
  {
    hide Shape, Lookup, Reachable, ValidTarget, GetBlobResult;
    TargetAgrees(tree, repo, s, t, name);
    GetMeaning(tree, repo, t, name);
  }

  lemma ListStepRefines(tree: Tree, repo: Path, s: Simple, t: string)
    requires StandsFor(tree, repo, s) && t in BLOB_TYPES
    ensures Step(tree, repo, List(t)) == (tree, SimpleStep(Filesystem, s, List(t)).1)
    ensures SimpleStep(Filesystem, s, List(t)).0 == s
  {
    hide StandsFor, Infos, Entries, Values, ValidPath, AllBelow;
    BelowIsBelow(tree, At(repo, t, []));
    ListRefines(tree, repo, s, t);
  }

  /** Any request of the handlers, on any well-shaped tree, is answered as the simple store answers
      it, and leads to a tree that stands for the next one. */
  lemma StepRefines(tree: Tree, repo: Path, s: Simple, op: Op)
    requires StandsFor(tree, repo, s) && Admissible(op)
    ensures Step(tree, repo, op).1 == SimpleStep(Filesystem, s, op).1
    ensures StandsFor(Step(tree, repo, op).0, repo, SimpleStep(Filesystem, s, op).0)
  {
    hide StandsFor, Step, SimpleStep;
    match op
    case Save(_, _, _, _) => SaveRefines(tree, repo, s, op);
    case Delete(_, _) => DeleteRefines(tree, repo, s, op);
    case List(t) => ListStepRefines(tree, repo, s, t);
    case StatOp(t, name) => StatRefines(tree, repo, s, t, name);
    case Get(t, name) => GetRefines(tree, repo, s, t, name);
  }

  // ----- Whole runs

  ghost function RunTree(tree: Tree, repo: Path, ops: seq<Op>): (Tree, seq<Reply>)
    decreases ops
  {
    if ops == [] then (tree, [])
    else
      var (next, reply) := Step(tree, repo, ops[0]);
      var (end, replies) := RunTree(next, repo, ops[1..]);
      (end, [reply] + replies)
  }

  ghost function RunSimple(kind: Kind, s: Simple, ops: seq<Op>): (Simple, seq<Reply>)
    decreases ops
  {
    if ops == [] then (s, [])
    else
      var (next, reply) := SimpleStep(kind, s, ops[0]);
      var (end, replies) := RunSimple(kind, next, ops[1..]);
      (end, [reply] + replies)
  }

  /** From any well-shaped tree, some of its blobs flat and some sharded, temporary files left by
      crashes or not, every sequence of requests that the handlers let through gets exactly the
      answers of the simple first-write-wins store, and no data blob is ever in both places. */
  lemma {:induction false} RunRefines(tree: Tree, repo: Path, s: Simple, ops: seq<Op>)
    requires StandsFor(tree, repo, s)
    requires forall i :: 0 <= i < |ops| ==> Admissible(ops[i])
    ensures RunTree(tree, repo, ops).1 == RunSimple(Filesystem, s, ops).1
    ensures StandsFor(RunTree(tree, repo, ops).0, repo, RunSimple(Filesystem, s, ops).0)
    decreases ops
  {
    hide StandsFor, Step, SimpleStep, Admissible;
    if ops != [] {
      StepRefines(tree, repo, s, ops[0]);
      RunRefines(Step(tree, repo, ops[0]).0, repo, SimpleStep(Filesystem, s, ops[0]).0, ops[1..]);
    }
  }
}
