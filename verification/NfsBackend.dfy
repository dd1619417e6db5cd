/**
 The NFS backend (internal/storage/nfs/nfs.go) on the same two-layout store. It looks in the same
 two places, creates missing directories itself (FileTree), writes through a temporary file of a
 fixed name, and lists data/ by going through the 256 shard directories instead of walking the tree.
 */
module NfsBackend {
  import opened Prelude
  import opened MapSum
  import opened BlobNames
  import opened FileTree
  import opened FileBackend
  import opened BlobStore
  import opened BlobListing
  import opened SimpleStore

  // ----- The operations on a tree

  function StatResult(tree: Tree, repo: Path, t: string, name: string): Result<Stat, FsError> {
    var p := BlobPath(repo, t, name);
    if p !in tree && HasFallback(t, name) then StatFile(tree, FlatPath(repo, name)) else StatFile(tree, p)
  }

  function GetResult(tree: Tree, repo: Path, t: string, name: string): Result<Bytes, FsError> {
    var p := BlobPath(repo, t, name);
    if p !in tree && HasFallback(t, name) then ReadFile(tree, FlatPath(repo, name)) else ReadFile(tree, p)
  }

  function TempOf(p: Path): Path
    requires p != []
  {
    Parent(p) + [".tmp-" + NameOf(p)]
  }

  /** A write through the fixed temporary file. A failing Create, for one because a directory has
      that name, leaves what was there. */
  function WriteResult(tree: Tree, p: Path, content: Bytes, fault: Fault): (Tree, Option<FsError>)
    requires p != []
  {
    if fault == AtCreate || IsDir(tree, TempOf(p)) then (tree, Some(Io))
    else if fault != NoFault then (tree - {TempOf(p)}, Some(Io))
    else ((tree - {TempOf(p)})[p := File(content)], None)
  }

  /** body None: the upload cannot be read, which is found out before anything else. */
  function SaveResult(tree: Tree, repo: Path, t: string, name: string, body: Option<Bytes>, fault: Fault)
      : (Tree, Option<FsError>)
  {
    var p := BlobPath(repo, t, name);
    if body.None? then (tree, Some(Io))
    else if p in tree then (tree, None)
    else if HasFallback(t, name) && FlatPath(repo, name) in tree then (tree, None)
    else
      var (made, ok) := MkdirAllResult(tree, Parent(p), {});
      if !ok then (made, Some(Io)) else WriteResult(made, p, body.value, fault)
  }

  /** REMOVE takes files only. */
  function RemoveFileResult(tree: Tree, p: Path): (Tree, Option<FsError>) {
    if p !in tree then (tree, Some(NotFound)) else if tree[p].Dir? then (tree, Some(Io)) else (tree - {p}, None)
  }

  function DeleteResult(tree: Tree, repo: Path, t: string, name: string): (Tree, Option<FsError>) {
    var p := BlobPath(repo, t, name);
    if p !in tree && HasFallback(t, name) then RemoveFileResult(tree, FlatPath(repo, name))
    else RemoveFileResult(tree, p)
  }

  /** The backend: a mounted target on which one operation runs at a time. */
  class Backend {
    const target: Target

    constructor (target: Target)
      ensures this.target == target
    {
      this.target := target;
    }

    /** Create, open, write, close, rename; a failure after the creation removes the temporary file. */
    method AtomicWrite(p: Path, content: Bytes, fault: Fault) returns (err: Option<FsError>)
      requires p != []
      modifies target
      ensures (target.tree, err) == WriteResult(old(target.tree), p, content, fault)
    {
      var tmp := TempOf(p);
      if fault == AtCreate || IsDir(target.tree, tmp) {
        return Some(Io);
      }
      target.tree := target.tree[tmp := File([])];
      if fault.AtCopy? {
        target.tree := target.tree - {tmp};
        assert target.tree == old(target.tree) - {tmp};
        return Some(Io);
      }
      target.tree := target.tree[tmp := File(content)];
      if fault != NoFault {
        target.tree := target.tree - {tmp};
        assert target.tree == old(target.tree) - {tmp};
        return Some(Io);
      }
      var written := target.tree[tmp];
      target.tree := (target.tree - {tmp})[p := written];
      assert target.tree == (old(target.tree) - {tmp})[p := written];
      return None;
    }

    method SaveBlob(repo: Path, t: string, name: string, body: Option<Bytes>, fault: Fault)
        returns (err: Option<FsError>)
      requires AncestorClosed(target.tree) && target.refused == {}
      modifies target
      ensures (target.tree, err) == SaveResult(old(target.tree), repo, t, name, body, fault)
    {
      var p := BlobPath(repo, t, name);
      if body.None? {
        return Some(Io);
      }
      if p in target.tree {
        return None;
      }
      if HasFallback(t, name) && FlatPath(repo, name) in target.tree {
        return None;
      }
      MkdirAllAdds(target.tree, Parent(p), {});
      var ok := target.MkdirAll(Parent(p));
      if !ok {
        return Some(Io);
      }
      err := AtomicWrite(p, body.value, fault);
    }

    method RemoveFile(p: Path) returns (err: Option<FsError>)
      modifies target
      ensures (target.tree, err) == RemoveFileResult(old(target.tree), p)
    {
      if p !in target.tree {
        return Some(NotFound);
      }
      if target.tree[p].Dir? {
        return Some(Io);
      }
      target.tree := target.tree - {p};
      return None;
    }

    method DeleteBlob(repo: Path, t: string, name: string) returns (err: Option<FsError>)
      modifies target
      ensures (target.tree, err) == DeleteResult(old(target.tree), repo, t, name)
    {
      err := RemoveFile(BlobPath(repo, t, name));
      if err == Some(NotFound) && HasFallback(t, name) {
        err := RemoveFile(FlatPath(repo, name));
      }
    }
  }

  lemma TempPlaceIs(repo: Path, t: string, name: string)
    ensures TempOf(BlobPath(repo, t, name)) == At(repo, t, TempPlace(t, name))
    ensures NameOf(TempPlace(t, name)) == ".tmp-" + name && TempName(NameOf(TempPlace(t, name)))
    ensures TempOf(BlobPath(repo, t, name)) != BlobPath(repo, t, name)
  {
    ParentOfPlace(repo, t, name);
    assert ".tmp-" <= ".tmp-" + name;
    assert NameOf(TempOf(BlobPath(repo, t, name))) == ".tmp-" + name;
  }

  lemma TempIsNoDirectory(tree: Tree, repo: Path, t: string, name: string)
    requires Shape(tree, repo) && ValidTarget(t, name)
    ensures At(repo, t, TempPlace(t, name)) in tree ==> tree[At(repo, t, TempPlace(t, name))].File?
  {
    TempPlaceIs(repo, t, name);
    var rest := TempPlace(t, name);
    if At(repo, t, rest) in tree {
      assert EntryOk(t, rest, tree[At(repo, t, rest)]);
    }
  }

  // ----- What the operations do on a well-shaped tree

  /** The shard directory that the name asks for is made. */
  function Opened(tree: Tree, repo: Path, t: string, name: string): Tree {
    if Reachable(tree, repo, t, name) then tree else tree[At(repo, "data", [name[..2]]) := Dir]
  }

  lemma MkdirOpens(tree: Tree, repo: Path, t: string, name: string)
    requires Shape(tree, repo) && ValidTarget(t, name)
    ensures MkdirAllResult(tree, Parent(BlobPath(repo, t, name)), {}) == (Opened(tree, repo, t, name), true)
    ensures !Reachable(tree, repo, t, name) ==> HasFallback(t, name) && At(repo, "data", [name[..2]]) !in tree
  {
    ParentOfPlace(repo, t, name);
    BlobNamesAreNotTemp(name);
    assert IsDir(tree, At(repo, t, []));
    if HasFallback(t, name) {
      var x := name[..2];
      assert Parent(At(repo, "data", [x])) == At(repo, "data", []);
      if At(repo, "data", [x]) in tree {
        assert EntryOk("data", [x], tree[At(repo, "data", [x])]);
      }
    }
  }

  lemma StatMeaning(tree: Tree, repo: Path, t: string, name: string)
    requires Shape(tree, repo) && ValidTarget(t, name)
    ensures StatResult(tree, repo, t, name) ==
            match Lookup(tree, repo, t, name)
            case Some(data) => Ok(FileSize(|data|))
            case None => if Collides(t, name) && Open(tree, repo, name) then Ok(DirectorySize) else Err(NotFound)
  {
    hide Shape, ValidTarget;
    Places(tree, repo, t, name);
  }

  lemma GetMeaning(tree: Tree, repo: Path, t: string, name: string)
    requires Shape(tree, repo) && ValidTarget(t, name)
    ensures GetResult(tree, repo, t, name) ==
            match Lookup(tree, repo, t, name)
            case Some(data) => Ok(data)
            case None => Err(if Collides(t, name) && Open(tree, repo, name) then Io else NotFound)
  {
    hide Shape, ValidTarget;
    Places(tree, repo, t, name);
  }

  lemma SaveMeaning(tree: Tree, repo: Path, t: string, name: string, body: Option<Bytes>, fault: Fault)
    requires Shape(tree, repo) && ValidTarget(t, name)
    ensures SaveResult(tree, repo, t, name, body, fault) ==
            if body.None? then (tree, Some(Io))
            else if Lookup(tree, repo, t, name).Some? || (Collides(t, name) && Open(tree, repo, name)) then (tree, None)
            else WriteResult(Opened(tree, repo, t, name), BlobPath(repo, t, name), body.value, fault)
  {
    hide Shape, ValidTarget, WriteResult, Opened;
    Places(tree, repo, t, name);
    MkdirOpens(tree, repo, t, name);
  }

  lemma DeleteMeaning(tree: Tree, repo: Path, t: string, name: string)
    requires Shape(tree, repo) && ValidTarget(t, name)
    ensures DeleteResult(tree, repo, t, name) ==
            if Lookup(tree, repo, t, name).Some? then (tree - {At(repo, t, PlaceTaken(tree, repo, t, name))}, None)
            else if Collides(t, name) && Open(tree, repo, name) then (tree, Some(Io))
            else (tree, Some(NotFound))
  {
    hide Shape, ValidTarget;
    Places(tree, repo, t, name);
  }

  /** Where the shard of the target is there, the two backends do the same, with one exception: under
      the name of an empty shard directory the filesystem backend deletes the directory. */
  lemma AgreesWithFileBackend(tree: Tree, repo: Path, t: string, name: string, body: Bytes)
    requires Shape(tree, repo) && ValidTarget(t, name)
    ensures Reachable(tree, repo, t, name) ==>
      && StatResult(tree, repo, t, name) == FileBackend.StatBlobResult(tree, repo, t, name)
      && GetResult(tree, repo, t, name) == FileBackend.GetBlobResult(tree, repo, t, name)
      && SaveResult(tree, repo, t, name, Some(body), AtCreate) == FileBackend.SaveBlobResult(tree, repo, t, name, None)
      && (At(repo, t, TempPlace(t, name)) !in tree ==>
            SaveResult(tree, repo, t, name, Some(body), NoFault)
            == FileBackend.SaveBlobResult(tree, repo, t, name, Some(body)))
    ensures Reachable(tree, repo, t, name) ==>
      (DeleteResult(tree, repo, t, name) == FileBackend.DeleteBlobResult(tree, repo, t, name) <==>
       !(Collides(t, name) && Lookup(tree, repo, t, name).None? && ShardEmpty(tree, repo, name)))
    ensures !Reachable(tree, repo, t, name) ==> StatResult(tree, repo, t, name) != Err(BadPath)
    ensures !Reachable(tree, repo, t, name) ==> FileBackend.StatBlobResult(tree, repo, t, name) == Err(BadPath)
  {
    hide Shape, ValidTarget, ShardEmpty, SaveResult, DeleteResult, Lookup;
    Collision(tree, repo, t, name);
    BlobStore.StatMeaning(tree, repo, t, name);
    BlobStore.GetMeaning(tree, repo, t, name);
    BlobStore.SaveMeaning(tree, repo, t, name, None);
    BlobStore.SaveMeaning(tree, repo, t, name, Some(body));
    BlobStore.DeleteMeaning(tree, repo, t, name);
    StatMeaning(tree, repo, t, name);
    GetMeaning(tree, repo, t, name);
    SaveMeaning(tree, repo, t, name, Some(body), AtCreate);
    SaveMeaning(tree, repo, t, name, Some(body), NoFault);
    DeleteMeaning(tree, repo, t, name);
    TempPlaceIs(repo, t, name);
    TempIsNoDirectory(tree, repo, t, name);
    assert At(repo, t, TempPlace(t, name)) !in tree ==> tree - {At(repo, t, TempPlace(t, name))} == tree;
  }

  lemma Collision(tree: Tree, repo: Path, t: string, name: string)
    ensures Collides(t, name) ==> (Reachable(tree, repo, t, name) <==> Open(tree, repo, name))
    ensures Collides(t, name) && Open(tree, repo, name) ==> tree - {At(repo, "data", [name])} != tree
  {
    if Collides(t, name) {
      assert name[..2] == name;
      if Open(tree, repo, name) {
        assert At(repo, "data", [name]) in tree;
      }
    }
  }

  // ----- Listing

  class Lister {
    const tree: Tree

    constructor (tree: Tree)
      ensures this.tree == tree
    {
      this.tree := tree;
    }

    /** Appends the files of one directory. */
    method ListDir(dir: Path, blobs: seq<BlobInfo>, ghost before: set<Path>) returns (r: seq<BlobInfo>)
      requires Listed(blobs, tree, before) && before !! FilesIn(tree, dir)
      ensures Listed(r, tree, before + FilesIn(tree, dir))
    {
      r := blobs;
      var entries := set p | p in tree && |p| == |dir| + 1 && dir <= p;
      ghost var done: set<Path> := {};
      assert before + done == before;
      while entries != {}
        invariant entries <= tree.Keys - {[]} && done !! entries && done <= FilesIn(tree, dir)
        invariant done + FilesAmong(tree, entries) == FilesIn(tree, dir)
        invariant Listed(r, tree, before + done)
        decreases entries
      {
        hide Listed;
        var e :| e in entries;
        entries := entries - {e};
        if tree[e].Dir? {
          continue;
        }
        ListedSnoc(r, tree, before + done, e);
        assert before + done + {e} == before + (done + {e});
        r := r + [InfoOf(tree, e)];
        done := done + {e};
      }
      assert done == FilesIn(tree, dir);
    }

    /** The flat directory first, then data/00 to data/ff. */
    method ListShardedBlobs(repo: Path) returns (blobs: seq<BlobInfo>)
      ensures Listed(blobs, tree, FilesUpTo(tree, repo, 256))
    {
      hide Listed;
      assert FilesIn(tree, At(repo, "data", [])) == {} + FilesIn(tree, At(repo, "data", []));
      EmptyListed(tree);
      blobs := ListDir(At(repo, "data", []), [], {});
      FlatThenShards(tree, repo);
      for i := 0 to 256
        invariant Listed(blobs, tree, FilesUpTo(tree, repo, i))
      {
        NextShard(tree, repo, i);
        blobs := ListDir(At(repo, "data", [Hex2(i)]), blobs, FilesUpTo(tree, repo, i));
      }
    }
  }

  lemma EmptyListed(tree: Tree)
    ensures Listed([], tree, {})
  {
  }

  /** The files of data/ that are flat or in one of the first n shards. */
  ghost function FilesUpTo(tree: Tree, repo: Path, n: nat): set<Path> {
    set p | p in FilesBelow(tree, At(repo, "data", [])) && InFirstShards(repo, p, n)
  }

  predicate InFirstShards(repo: Path, p: Path, n: nat) {
    || |p| == |repo| + 2
    || (|p| == |repo| + 3 && IsShard(p[|repo| + 1]) && ShardIndex(p[|repo| + 1]) < n)
  }

  lemma FlatThenShards(tree: Tree, repo: Path)
    ensures FilesUpTo(tree, repo, 0) == FilesIn(tree, At(repo, "data", []))
  {
  }

  lemma NextShard(tree: Tree, repo: Path, i: nat)
    requires i < 256
    ensures FilesUpTo(tree, repo, i) !! FilesIn(tree, At(repo, "data", [Hex2(i)]))
    ensures FilesUpTo(tree, repo, i + 1) == FilesUpTo(tree, repo, i) + FilesIn(tree, At(repo, "data", [Hex2(i)]))
  {
    var dir := At(repo, "data", [Hex2(i)]);
    Hex2IsBijection();
    forall p
      ensures p in FilesIn(tree, dir) <==>
        p in FilesBelow(tree, At(repo, "data", [])) && |p| == |repo| + 3 && IsShard(p[|repo| + 1])
            && ShardIndex(p[|repo| + 1]) == i
    {
      InShard(tree, repo, i, p);
    }
  }

  lemma InShard(tree: Tree, repo: Path, i: nat, p: Path)
    requires i < 256
    ensures p in FilesIn(tree, At(repo, "data", [Hex2(i)])) <==>
      p in FilesBelow(tree, At(repo, "data", [])) && |p| == |repo| + 3 && IsShard(p[|repo| + 1])
          && ShardIndex(p[|repo| + 1]) == i
  {
    var dir, data := At(repo, "data", [Hex2(i)]), At(repo, "data", []);
    Hex2IsBijection();
    assert dir == data + [Hex2(i)];
    if |p| == |repo| + 3 && data <= p {
      assert dir <= p <==> p[|repo| + 1] == Hex2(i) by {
        assert dir[|repo| + 1] == Hex2(i);
      }
    }
  }

  // ----- Whole runs

  /** The files that a listing of the type shows. */
  ghost function ListedFiles(tree: Tree, repo: Path, t: string): set<Path> {
    if t == "data" then FilesUpTo(tree, repo, 256) else FilesIn(tree, At(repo, t, []))
  }

  lemma ListedAreBelow(tree: Tree, repo: Path, t: string)
    ensures AllBelow(tree, At(repo, t, []), ListedFiles(tree, repo, t))
  {
  }

  /** An operation of the NFS backend. */
  ghost function Step(tree: Tree, repo: Path, op: Op): (Tree, Reply) {
    match op
    case Save(t, name, body, fault) =>
      var (tree', err) := SaveResult(tree, repo, t, name, body, fault);
      (tree', ErrorReply(err))
    case StatOp(t, name) => (tree, StatReply(StatResult(tree, repo, t, name)))
    case Get(t, name) => (tree, BodyReply(GetResult(tree, repo, t, name)))
    case Delete(t, name) =>
      var (tree', err) := DeleteResult(tree, repo, t, name);
      (tree', ErrorReply(err))
    case List(t) =>
      ListedAreBelow(tree, repo, t);
      (tree, Listing(Values(Infos(tree, At(repo, t, []), ListedFiles(tree, repo, t)))))
  }

  /** What StandsFor says of one target. */
  lemma TargetAgrees(tree: Tree, repo: Path, s: Simple, t: string, name: string)
    requires StandsFor(tree, repo, s) && ValidTarget(t, name)
    ensures Shape(tree, repo) && Lookup(tree, repo, t, name) == Find(s.blobs, t, name)
    ensures Collides(t, name) && Open(tree, repo, name) <==> IsDirectory(s, t, name)
    ensures Reachable(tree, repo, t, name) <==> (HasFallback(t, name) ==> name[..2] in s.open)
  {
  }

  lemma OpenedKeeps(tree: Tree, repo: Path, s: Simple, t: string, name: string)
    requires StandsFor(tree, repo, s) && ValidTarget(t, name)
    ensures StandsFor(Opened(tree, repo, t, name), repo,
                      s.(open := if HasFallback(t, name) then s.open + {name[..2]} else s.open))
    ensures Reachable(Opened(tree, repo, t, name), repo, t, name)
  {
    TargetAgrees(tree, repo, s, t, name);
    MkdirOpens(tree, repo, t, name);
    hide StandsFor, ValidBlobName;
    if Reachable(tree, repo, t, name) {
      assert HasFallback(t, name) ==> s.open + {name[..2]} == s.open;
    } else {
      var x := name[..2];
      var tree' := tree[At(repo, "data", [x]) := Dir];
      ChangedAt(tree, tree', repo, "data", [x]);
      BlobNamesAreNotTemp(name);
      DirectoryKeeps(tree, tree', repo, s, x);
    }
  }

  /** The tree just before the blob is stored, or the write given up. */
  function Ready(tree: Tree, repo: Path, t: string, name: string, fault: Fault): Tree {
    var made := Opened(tree, repo, t, name);
    if fault == AtCreate then made else made - {At(repo, t, TempPlace(t, name))}
  }

  lemma ReadyKeeps(tree: Tree, repo: Path, s: Simple, t: string, name: string, fault: Fault)
    requires StandsFor(tree, repo, s) && ValidTarget(t, name)
    ensures StandsFor(Ready(tree, repo, t, name, fault), repo, Prepared(s, t, name, fault))
    ensures Reachable(Ready(tree, repo, t, name, fault), repo, t, name)
    ensures !IsDir(Opened(tree, repo, t, name), At(repo, t, TempPlace(t, name)))
  {
    hide StandsFor, Opened, ValidBlobName;
    OpenedKeeps(tree, repo, s, t, name);
    TempIsFile(Opened(tree, repo, t, name), repo,
               s.(open := if HasFallback(t, name) then s.open + {name[..2]} else s.open), t, name);
    if fault != AtCreate {
      var made, ready := Opened(tree, repo, t, name),
        s.(open := if HasFallback(t, name) then s.open + {name[..2]} else s.open);
      TempPlaceIs(repo, t, name);
      TempGoneKeeps(made, repo, ready, t, TempPlace(t, name));
      StillReachable(made, repo, t, name);
    }
  }

  lemma TempIsFile(tree: Tree, repo: Path, s: Simple, t: string, name: string)
    requires StandsFor(tree, repo, s) && ValidTarget(t, name)
    ensures At(repo, t, TempPlace(t, name)) in tree ==> tree[At(repo, t, TempPlace(t, name))].File?
  {
    TempPlaceIs(repo, t, name);
    TempIsNoDirectory(tree, repo, t, name);
  }

  lemma StillReachable(tree: Tree, repo: Path, t: string, name: string)
    requires Reachable(tree, repo, t, name)
    ensures Reachable(tree - {At(repo, t, TempPlace(t, name))}, repo, t, name)
  {
    if HasFallback(t, name) {
      AtInjective(repo, "data", [name[..2]], t, TempPlace(t, name));
    }
  }

  lemma SaveRefines(tree: Tree, repo: Path, s: Simple, op: Op)
    requires StandsFor(tree, repo, s) && op.Save? && Admissible(op)
    ensures Step(tree, repo, op).1 == SimpleStep(Nfs, s, op).1
    ensures StandsFor(Step(tree, repo, op).0, repo, SimpleStep(Nfs, s, op).0)
  {
    hide StandsFor, Opened, Lookup, Stored, Prepared, SaveResult, ValidBlobName;
    hide IsDir, Collides, Open, Reachable, TempPlace;
    var Save(t, name, body, fault) := op;
    TargetAgrees(tree, repo, s, t, name);
    SaveMeaning(tree, repo, t, name, body, fault);
    TempPlaceIs(repo, t, name);
    if body.Some? && (t, name) !in s.blobs && !IsDirectory(s, t, name) {
      ReadyKeeps(tree, repo, s, t, name, fault);
      if fault == NoFault {
        PreparedFinds(Ready(tree, repo, t, name, fault), repo, s, t, name, fault);
        WriteKeeps(Ready(tree, repo, t, name, fault), repo, Prepared(s, t, name, fault), t, name, body.value);
      }
    }
  }

  lemma PreparedFinds(tree: Tree, repo: Path, s: Simple, t: string, name: string, fault: Fault)
    requires StandsFor(tree, repo, Prepared(s, t, name, fault)) && ValidTarget(t, name)
    ensures Lookup(tree, repo, t, name) == Find(s.blobs, t, name)
  {
  }

  lemma DeleteRefines(tree: Tree, repo: Path, s: Simple, op: Op)
    requires StandsFor(tree, repo, s) && op.Delete? && Admissible(op)
    ensures Step(tree, repo, op).1 == SimpleStep(Nfs, s, op).1
    ensures StandsFor(Step(tree, repo, op).0, repo, SimpleStep(Nfs, s, op).0)
  {
    var t, name := op.t, op.name;
    TargetAgrees(tree, repo, s, t, name);
    DeleteMeaning(tree, repo, t, name);
    hide StandsFor, Lookup, Removed, DeleteResult, Occupied, Shape, ValidTarget, Open, Reachable, PlaceTaken;
    if (t, name) in s.blobs {
      RemoveKeeps(tree, repo, s, t, name);
    }
  }

  lemma ListedIsVisible(tree: Tree, repo: Path, t: string, r: Path)
    requires Shape(tree, repo) && t in BLOB_TYPES && r != []
    ensures At(repo, t, r) in ListedFiles(tree, repo, t) <==> IsFile(tree, At(repo, t, r)) && Visible(Nfs, t, r)
  {
    var p, dir := At(repo, t, r), At(repo, t, []);
    assert dir <= p && |p| == |repo| + 1 + |r| && p[|repo| + 1] == r[0];
    Hex2IsBijection();
    if IsFile(tree, p) {
      assert EntryOk(t, r, tree[p]);
    }
  }

  lemma ListRefines(tree: Tree, repo: Path, s: Simple, t: string)
    requires StandsFor(tree, repo, s) && t in BLOB_TYPES && AllBelow(tree, At(repo, t, []), ListedFiles(tree, repo, t))
    ensures Infos(tree, At(repo, t, []), ListedFiles(tree, repo, t)) == Entries(Nfs, s, t)
  {
    var infos, entries := Infos(tree, At(repo, t, []), ListedFiles(tree, repo, t)), Entries(Nfs, s, t);
    hide *;
    forall r
      ensures r in infos <==> r in entries
      ensures r in entries ==> r in infos && entries[r] == infos[r]
    {
      EntryIs(tree, repo, s, t, r);
    }
    SameMaps(infos, entries);
  }

  lemma EntryIs(tree: Tree, repo: Path, s: Simple, t: string, r: Path)
    requires StandsFor(tree, repo, s) && t in BLOB_TYPES && AllBelow(tree, At(repo, t, []), ListedFiles(tree, repo, t))
    ensures var infos, entries := Infos(tree, At(repo, t, []), ListedFiles(tree, repo, t)), Entries(Nfs, s, t);
      && (r in infos <==> r in entries)
      && (r in entries ==> r in infos && entries[r] == infos[r])
  {
    var dir := At(repo, t, []);
    assert dir + r == At(repo, t, r);
    if r != [] {
      ListedIsVisible(tree, repo, t, r);
    } else {
      RootIsNoEntry(Nfs, s, t);
      assert dir + [] == dir;
    }
    hide StandsFor, ListedFiles, Infos, Entries, InfoOf, IsFile, At;
    if r != [] {
      VisibleFiles(tree, repo, s, Nfs, t, r);
    }
  }

  lemma StatRefines(tree: Tree, repo: Path, s: Simple, t: string, name: string)
    requires StandsFor(tree, repo, s) && ValidTarget(t, name)
    ensures Step(tree, repo, StatOp(t, name)) == (tree, SimpleStep(Nfs, s, StatOp(t, name)).1)
    ensures SimpleStep(Nfs, s, StatOp(t, name)).0 == s
  {
    hide StandsFor, Lookup, StatResult, Shape, ValidTarget;
    TargetAgrees(tree, repo, s, t, name);
    StatMeaning(tree, repo, t, name);
  }

  lemma GetRefines(tree: Tree, repo: Path, s: Simple, t: string, name: string)
    requires StandsFor(tree, repo, s) && ValidTarget(t, name)
    ensures Step(tree, repo, Get(t, name)) == (tree, SimpleStep(Nfs, s, Get(t, name)).1)
    ensures SimpleStep(Nfs, s, Get(t, name)).0 == s
  {
    hide StandsFor, Lookup, GetResult, Shape, ValidTarget;
    TargetAgrees(tree, repo, s, t, name);
    GetMeaning(tree, repo, t, name);
  }

  lemma ListStepRefines(tree: Tree, repo: Path, s: Simple, t: string)
    requires StandsFor(tree, repo, s) && t in BLOB_TYPES
    ensures Step(tree, repo, List(t)) == (tree, SimpleStep(Nfs, s, List(t)).1)
    ensures SimpleStep(Nfs, s, List(t)).0 == s
  {
    hide StandsFor, Infos, Entries, Values, ValidPath, AllBelow;
    ListedAreBelow(tree, repo, t);
    ListRefines(tree, repo, s, t);
  }

  lemma StepRefines(tree: Tree, repo: Path, s: Simple, op: Op)
    requires StandsFor(tree, repo, s) && Admissible(op)
    ensures Step(tree, repo, op).1 == SimpleStep(Nfs, s, op).1
    ensures StandsFor(Step(tree, repo, op).0, repo, SimpleStep(Nfs, s, op).0)
  {
    hide StandsFor, Step, SimpleStep;
    match op
    case Save(_, _, _, _) => SaveRefines(tree, repo, s, op);
    case Delete(_, _) => DeleteRefines(tree, repo, s, op);
    case List(t) => ListStepRefines(tree, repo, s, t);
    case StatOp(t, name) => StatRefines(tree, repo, s, t, name);
    case Get(t, name) => GetRefines(tree, repo, s, t, name);
  }

  ghost function RunTree(tree: Tree, repo: Path, ops: seq<Op>): (Tree, seq<Reply>)
    decreases ops
  {
    if ops == [] then (tree, [])
    else
      var (next, reply) := Step(tree, repo, ops[0]);
      var (end, replies) := RunTree(next, repo, ops[1..]);
      (end, [reply] + replies)
  }

  /** From any well-shaped tree, shard directories in any case and temporary files included, every
      sequence of requests that the handlers let through gets the answers of the simple store as
      this backend treats it. */
  lemma {:induction false} RunRefines(tree: Tree, repo: Path, s: Simple, ops: seq<Op>)
    requires StandsFor(tree, repo, s)
    requires forall i :: 0 <= i < |ops| ==> Admissible(ops[i])
    ensures RunTree(tree, repo, ops).1 == RunSimple(Nfs, s, ops).1
    ensures StandsFor(RunTree(tree, repo, ops).0, repo, RunSimple(Nfs, s, ops).0)
    decreases ops
  {
    hide StandsFor, Step, SimpleStep, Admissible;
    if ops != [] {
      StepRefines(tree, repo, s, ops[0]);
      RunRefines(Step(tree, repo, ops[0]).0, repo, SimpleStep(Nfs, s, ops[0]).0, ops[1..]);
    }
  }

  // ----- Stored but not listed

  /** This backend creates whatever shard directory a name asks for, but lists only the lowercase
      ones. On any well-shaped tree a stored data blob is listed exactly when it lies flat or the
      first two characters of its name are lowercase. */
  lemma StoredIsListedIff(tree: Tree, repo: Path, name: string, blobs: seq<BlobInfo>)
    requires Shape(tree, repo) && ValidBlobName(name) && Lookup(tree, repo, "data", name).Some?
    requires Listed(blobs, tree, FilesUpTo(tree, repo, 256))
    ensures BlobInfo(name, |Lookup(tree, repo, "data", name).value|) in blobs <==>
      !Sharded(tree, repo, name) || IsShard(name[..2])
    ensures (exists b :: b in blobs && b.name == name) <==> !Sharded(tree, repo, name) || IsShard(name[..2])
  {
    var at := ListedPositions(blobs, tree, FilesUpTo(tree, repo, 256));
    var place := if Sharded(tree, repo, name) then Place("data", name) else [name];
    var p := At(repo, "data", place);
    PlaceNames("data", name, "data", name);
    ListedIsVisible(tree, repo, "data", place);
    hide Shape, Lookup, FilesUpTo;
    if p in FilesUpTo(tree, repo, 256) {
      var i :| 0 <= i < |at| && at[i] == p;
      assert blobs[i] == InfoOf(tree, p);
    }
    if b :| b in blobs && b.name == name {
      var i :| 0 <= i < |blobs| && blobs[i] == b;
      NamedFile(tree, repo, name, at[i]);
    }
  }

  /** A file that carries the name of a stored blob is that blob. */
  lemma NamedFile(tree: Tree, repo: Path, name: string, q: Path)
    requires Shape(tree, repo) && ValidBlobName(name) && q in FilesUpTo(tree, repo, 256) && NameOf(q) == name
    ensures q == At(repo, "data", if Sharded(tree, repo, name) then Place("data", name) else [name])
  {
    BlobNamesAreNotTemp(name);
    FileBelowIsBlob(tree, repo, "data", q);
  }

  /** An upload that is read and written without a fault is stored, unless its name is that of a
      shard directory; a blob that was not there before is then listed exactly when the first two
      characters of its name are lowercase. */
  lemma SavedIsListedIff(tree: Tree, repo: Path, name: string, data: Bytes, blobs: seq<BlobInfo>)
    requires Shape(tree, repo) && ValidTarget("data", name) && Lookup(tree, repo, "data", name).None? && |name| >= 2
    requires var tree' := SaveResult(tree, repo, "data", name, Some(data), NoFault).0;
      Listed(blobs, tree', FilesUpTo(tree', repo, 256))
    ensures var (tree', err) := SaveResult(tree, repo, "data", name, Some(data), NoFault);
      && err == None
      && Shape(tree', repo)
      && (Lookup(tree', repo, "data", name) == Some(data) <==> !(Collides("data", name) && Open(tree, repo, name)))
      && (Lookup(tree', repo, "data", name) == Some(data) ==>
            ((exists b :: b in blobs && b.name == name) <==> IsShard(name[..2])))
  {
    hide Shape, SaveResult, Lookup, FilesUpTo, Listed, ValidBlobName;
    EveryShapeStandsFor(tree, repo);
    var s := Abstract(tree, repo);
    var op := Save("data", name, Some(data), NoFault);
    hide StandsFor, Abstract;
    TargetAgrees(tree, repo, s, "data", name);
    StepRefines(tree, repo, s, op);
    var tree' := Step(tree, repo, op).0;
    SavedFacts(tree, tree', repo, s, name, data);
    if Lookup(tree', repo, "data", name) == Some(data) {
      StoredIsListedIff(tree', repo, name, blobs);
    }
  }

  lemma SavedFacts(tree: Tree, tree': Tree, repo: Path, s: Simple, name: string, data: Bytes)
    requires StandsFor(tree, repo, s) && ValidTarget("data", name) && Lookup(tree, repo, "data", name).None?
    requires |name| >= 2
    requires var op := Save("data", name, Some(data), NoFault);
      Step(tree, repo, op) == (tree', SimpleStep(Nfs, s, op).1) && StandsFor(tree', repo, SimpleStep(Nfs, s, op).0)
    ensures Shape(tree', repo) && SaveResult(tree, repo, "data", name, Some(data), NoFault) == (tree', None)
    ensures Lookup(tree', repo, "data", name) == Some(data) <==> !(Collides("data", name) && Open(tree, repo, name))
    ensures Lookup(tree', repo, "data", name) == Some(data) ==> Sharded(tree', repo, name)
  {
    hide SaveResult, Shape, Lookup, Sharded, ValidBlobName, TempsAgree;
    var s' := SimpleStep(Nfs, s, Save("data", name, Some(data), NoFault)).0;
    assert Lookup(tree, repo, "data", name) == Find(s.blobs, "data", name);
    assert Lookup(tree', repo, "data", name) == Find(s'.blobs, "data", name);
    assert name in s'.sharded <==> Sharded(tree', repo, name);
    assert IsDirectory(s, "data", name) <==> Collides("data", name) && Open(tree, repo, name);
  }
}
