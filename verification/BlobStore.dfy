/**
 What the two-layout store means: the invariant of a repository's directories, the blobs they hold,
 and what one operation does to them. The invariant allows what the NFS backend and interrupted
 uploads leave behind, so it serves both file backends, before and after a crash.
 */
module BlobStore {
  import opened Prelude
  import opened BlobNames
  import opened FileTree
  import opened FileBackend

  // ----- The invariant

  /** What may be found below a type directory: blobs and temporary files; below data/ also shard
      directories, named in either case, with blobs and temporary files of theirs. */
  predicate EntryOk(t: string, rest: Path, node: Node) {
    if t != "data" then |rest| == 1 && node.File? && (TempName(rest[0]) || ValidBlobName(rest[0]))
    else if |rest| == 1 then
      if node.Dir? then HexPair(rest[0]) else TempName(rest[0]) || (ValidBlobName(rest[0]) && |rest[0]| != 2)
    else
      && |rest| == 2 && node.File? && HexPair(rest[0])
      && (TempName(rest[1]) || (ValidBlobName(rest[1]) && |rest[1]| >= 2 && rest[1][..2] == rest[0]))
  }

  ghost predicate EntriesOk(tree: Tree, repo: Path) {
    forall t, rest :: t in BLOB_TYPES && rest != [] && At(repo, t, rest) in tree ==>
      EntryOk(t, rest, tree[At(repo, t, rest)])
  }

  /** No data blob lies in both layouts. */
  ghost predicate OnePlace(tree: Tree, repo: Path) {
    forall name :: HasFallback("data", name) ==>
      !(IsFile(tree, BlobPath(repo, "data", name)) && IsFile(tree, FlatPath(repo, name)))
  }

  /** What lies in a shard lies in a directory. */
  ghost predicate ShardsAreDirs(tree: Tree, repo: Path) {
    forall x, name :: At(repo, "data", [x, name]) in tree ==> Open(tree, repo, x)
  }

  ghost predicate ContentOk(tree: Tree, repo: Path) {
    EntriesOk(tree, repo) && OnePlace(tree, repo) && ShardsAreDirs(tree, repo)
  }

  ghost predicate TypeDirsOk(tree: Tree, repo: Path) {
    forall t :: t in BLOB_TYPES ==> IsDir(tree, At(repo, t, []))
  }

  ghost predicate Shape(tree: Tree, repo: Path) {
    ContentOk(tree, repo) && TypeDirsOk(tree, repo)
  }

  /** The shard directory x is there. */
  predicate Open(tree: Tree, repo: Path, x: string) {
    IsDir(tree, At(repo, "data", [x]))
  }

  lemma AtInjective(repo: Path, t: string, rest: Path, t2: string, rest2: Path)
    ensures At(repo, t, rest) == At(repo, t2, rest2) <==> t == t2 && rest == rest2
  {
    if At(repo, t, rest) == At(repo, t2, rest2) {
      assert At(repo, t, rest)[|repo|] == t && At(repo, t2, rest2)[|repo|] == t2;
      assert At(repo, t, rest)[|repo| + 1..] == rest && At(repo, t2, rest2)[|repo| + 1..] == rest2;
    }
  }

  lemma ParentOfPlace(repo: Path, t: string, name: string)
    ensures Parent(BlobPath(repo, t, name)) == At(repo, t, if HasFallback(t, name) then [name[..2]] else [])
    ensures Parent(FlatPath(repo, name)) == At(repo, "data", [])
    ensures NameOf(BlobPath(repo, t, name)) == name && NameOf(FlatPath(repo, name)) == name
  {
  }

  // ----- The map that the tree stands for

  /** The blob of a name, wherever it lies. */
  function Lookup(tree: Tree, repo: Path, t: string, name: string): Option<Bytes> {
    if IsFile(tree, BlobPath(repo, t, name)) then Some(tree[BlobPath(repo, t, name)].content)
    else if HasFallback(t, name) && IsFile(tree, FlatPath(repo, name)) then Some(tree[FlatPath(repo, name)].content)
    else None
  }

  /** The shard directory of the target, if it needs one, is there. */
  predicate Reachable(tree: Tree, repo: Path, t: string, name: string) {
    HasFallback(t, name) ==> Open(tree, repo, name[..2])
  }

  /** The flat path of the target is the path of a shard directory. */
  predicate Collides(t: string, name: string) {
    t == "data" && |name| == 2
  }

  ghost predicate ShardEmpty(tree: Tree, repo: Path, x: string) {
    forall name :: At(repo, "data", [x, name]) !in tree
  }

  predicate Sharded(tree: Tree, repo: Path, name: string) {
    ValidBlobName(name) && HasFallback("data", name) && IsFile(tree, BlobPath(repo, "data", name))
  }

  /** The two places of a target, and what can be there. */
  lemma Places(tree: Tree, repo: Path, t: string, name: string)
    requires Shape(tree, repo) && ValidTarget(t, name)
    ensures BlobPath(repo, t, name) in tree ==> tree[BlobPath(repo, t, name)].File? && Reachable(tree, repo, t, name)
    ensures ValidPath(tree, BlobPath(repo, t, name)) <==> Reachable(tree, repo, t, name)
    ensures HasFallback(t, name) ==> ValidPath(tree, FlatPath(repo, name))
    ensures HasFallback(t, name) && FlatPath(repo, name) in tree ==>
      (tree[FlatPath(repo, name)].Dir? <==> Collides(t, name))
    ensures HasFallback(t, name) && Collides(t, name) ==> FlatPath(repo, name) == At(repo, "data", [name[..2]])
    ensures HasFallback(t, name) && BlobPath(repo, t, name) in tree && FlatPath(repo, name) in tree
        ==> Collides(t, name)
  {
    ParentOfPlace(repo, t, name);
    BlobNamesAreNotTemp(name);
    assert IsDir(tree, At(repo, t, []));
    var place := Place(t, name);
    assert BlobPath(repo, t, name) in tree ==> EntryOk(t, place, tree[At(repo, t, place)]);
    if HasFallback(t, name) {
      assert FlatPath(repo, name) in tree ==> EntryOk("data", [name], tree[At(repo, "data", [name])]);
      if Collides(t, name) {
        assert name[..2] == name;
      }
    }
  }

  /** Two targets share no place. */
  lemma PlacesDiffer(repo: Path, t: string, name: string, t2: string, name2: string)
    requires (t, name) != (t2, name2)
    ensures BlobPath(repo, t, name) != BlobPath(repo, t2, name2)
    ensures HasFallback(t, name) && HasFallback(t2, name2) ==> FlatPath(repo, name) != FlatPath(repo, name2)
    ensures HasFallback(t2, name2) ==> BlobPath(repo, t, name) != FlatPath(repo, name2)
  {
    AtInjective(repo, t, Place(t, name), t2, Place(t2, name2));
    AtInjective(repo, "data", [name], "data", [name2]);
    AtInjective(repo, t, Place(t, name), "data", [name2]);
    assert NameOf(Place(t, name)) == name && NameOf(Place(t2, name2)) == name2;
  }

  // ----- One operation

  lemma StatMeaning(tree: Tree, repo: Path, t: string, name: string)
    requires Shape(tree, repo) && ValidTarget(t, name)
    ensures StatBlobResult(tree, repo, t, name) ==
            if !Reachable(tree, repo, t, name) then Err(BadPath)
            else match Lookup(tree, repo, t, name)
              case Some(data) => Ok(FileSize(|data|))
              case None => if Collides(t, name) then Ok(DirectorySize) else Err(NotFound)
  {
    hide Shape, ValidTarget, ValidPath;
    Places(tree, repo, t, name);
  }

  lemma GetMeaning(tree: Tree, repo: Path, t: string, name: string)
    requires Shape(tree, repo) && ValidTarget(t, name)
    ensures GetBlobResult(tree, repo, t, name) ==
            if !Reachable(tree, repo, t, name) then Err(BadPath)
            else match Lookup(tree, repo, t, name)
              case Some(data) => Ok(data)
              case None => Err(if Collides(t, name) then Io else NotFound)
  {
    hide Shape, ValidTarget, ValidPath;
    Places(tree, repo, t, name);
  }

  /** Save is first-write-wins, whatever happens to the write, but for a name whose flat path is a
      shard directory: its upload is taken for a duplicate and dropped. */
  lemma SaveMeaning(tree: Tree, repo: Path, t: string, name: string, data: Option<Bytes>)
    requires Shape(tree, repo) && ValidTarget(t, name)
    ensures SaveBlobResult(tree, repo, t, name, data) ==
            if !Reachable(tree, repo, t, name) then (tree, Some(BadPath))
            else if Lookup(tree, repo, t, name).Some? || Collides(t, name) then (tree, None)
            else if data.None? then (tree, Some(Io))
            else (tree[BlobPath(repo, t, name) := File(data.value)], None)
  {
    hide ContentOk, ValidBlobName, ValidPath;
    Places(tree, repo, t, name);
    ParentOfPlace(repo, t, name);
    var parent := Parent(BlobPath(repo, t, name));
    if Reachable(tree, repo, t, name) {
      assert IsDir(tree, At(repo, t, []));
      assert MkdirAllResult(tree, parent, {}) == (tree, true);
    }
  }

  /** The place that a blob is removed from. */
  function PlaceTaken(tree: Tree, repo: Path, t: string, name: string): Path {
    if BlobPath(repo, t, name) in tree then Place(t, name) else [name]
  }

  /** Delete removes the blob. Under the name of a shard directory it removes that directory, when
      nothing is left in it. */
  lemma DeleteMeaning(tree: Tree, repo: Path, t: string, name: string)
    requires Shape(tree, repo) && ValidTarget(t, name)
    ensures DeleteBlobResult(tree, repo, t, name) ==
            if !Reachable(tree, repo, t, name) then (tree, Some(BadPath))
            else if Lookup(tree, repo, t, name).Some? then (tree - {At(repo, t, PlaceTaken(tree, repo, t, name))}, None)
            else if !Collides(t, name) then (tree, Some(NotFound))
            else if ShardEmpty(tree, repo, name) then (tree - {At(repo, "data", [name])}, None)
            else (tree, Some(Io))
  {
    hide ContentOk, ValidTarget, ValidPath, ShardEmpty;
    Places(tree, repo, t, name);
    if Reachable(tree, repo, t, name) && Lookup(tree, repo, t, name).None? && Collides(t, name) {
      RemoveDirectory(tree, repo, name);
    }
  }

  lemma RemoveDirectory(tree: Tree, repo: Path, x: string)
    requires Open(tree, repo, x) && |x| == 2
    ensures RemoveResult(tree, At(repo, "data", [x])) ==
            if ShardEmpty(tree, repo, x) then (tree - {At(repo, "data", [x])}, None) else (tree, Some(Io))
  {
    var dir := At(repo, "data", [x]);
    forall q | q in tree && |q| == |dir| + 1 && dir <= q
      ensures !ShardEmpty(tree, repo, x)
    {
      assert q == At(repo, "data", [x, NameOf(q)]);
    }
    if !ShardEmpty(tree, repo, x) {
      var name :| At(repo, "data", [x, name]) in tree;
      assert dir <= At(repo, "data", [x, name]);
    }
  }

  // ----- What a change of one entry does

  ghost predicate SameAt(tree: Tree, tree': Tree, p: Path) {
    (p in tree <==> p in tree') && (p in tree ==> tree[p] == tree'[p])
  }

  /** The trees differ at most at one place below a type directory of the repository. */
  ghost predicate OneChange(tree: Tree, tree': Tree, repo: Path, t: string, rest: Path) {
    forall u, r :: (u, r) != (t, rest) ==> SameAt(tree, tree', At(repo, u, r))
  }

  lemma ChangedAt(tree: Tree, tree': Tree, repo: Path, t: string, rest: Path)
    requires forall p :: p != At(repo, t, rest) ==> SameAt(tree, tree', p)
    ensures OneChange(tree, tree', repo, t, rest)
  {
    forall u, r | (u, r) != (t, rest)
      ensures SameAt(tree, tree', At(repo, u, r))
    {
      AtInjective(repo, u, r, t, rest);
    }
  }

  lemma ShapeAfterChange(tree: Tree, tree': Tree, repo: Path, t: string, rest: Path)
    requires Shape(tree, repo) && t in BLOB_TYPES && rest != [] && OneChange(tree, tree', repo, t, rest)
    requires At(repo, t, rest) in tree' ==> EntryOk(t, rest, tree'[At(repo, t, rest)])
    requires OnePlace(tree', repo) && ShardsAreDirs(tree', repo)
    ensures Shape(tree', repo)
  {
    hide EntryOk, OnePlace, ShardsAreDirs;
    forall u, r | u in BLOB_TYPES && r != [] && At(repo, u, r) in tree'
      ensures EntryOk(u, r, tree'[At(repo, u, r)])
    {
      assert (u, r) != (t, rest) ==> SameAt(tree, tree', At(repo, u, r));
    }
    forall u | u in BLOB_TYPES
      ensures IsDir(tree', At(repo, u, []))
    {
      assert SameAt(tree, tree', At(repo, u, []));
    }
  }

  lemma LookupAfterChange(tree: Tree, tree': Tree, repo: Path, t: string, rest: Path, u: string, name: string)
    requires OneChange(tree, tree', repo, t, rest)
    ensures (u, Place(u, name)) != (t, rest) ==>
        IsFile(tree', BlobPath(repo, u, name)) == IsFile(tree, BlobPath(repo, u, name))
    ensures ("data", [name]) != (t, rest) ==> IsFile(tree', FlatPath(repo, name)) == IsFile(tree, FlatPath(repo, name))
    ensures (u, Place(u, name)) != (t, rest) && (HasFallback(u, name) ==> ("data", [name]) != (t, rest)) ==>
      Lookup(tree', repo, u, name) == Lookup(tree, repo, u, name)
  {
    assert (u, Place(u, name)) != (t, rest) ==> SameAt(tree, tree', BlobPath(repo, u, name));
    assert ("data", [name]) != (t, rest) ==> SameAt(tree, tree', FlatPath(repo, name));
  }

  /** No temporary file is named like its directory. */
  lemma ShardedIsBlob(name: string, node: Node)
    requires HasFallback("data", name) && EntryOk("data", Place("data", name), node)
    ensures ValidBlobName(name)
  {
    if TempName(name) {
      assert false;
    }
  }

  /** A file comes or goes. */
  lemma ShapeAfterFile(tree: Tree, tree': Tree, repo: Path, t: string, rest: Path)
    requires Shape(tree, repo) && t in BLOB_TYPES && rest != [] && OneChange(tree, tree', repo, t, rest)
    requires At(repo, t, rest) in tree ==> tree[At(repo, t, rest)].File?
    requires At(repo, t, rest) in tree' ==>
      && tree'[At(repo, t, rest)].File? && EntryOk(t, rest, tree'[At(repo, t, rest)])
      && (t == "data" && |rest| == 2 ==> Open(tree, repo, rest[0]))
      && (t == "data" && |rest| == 1 ==> |rest[0]| != 2)
      && (t == "data" && ValidBlobName(NameOf(rest)) && HasFallback(t, NameOf(rest)) ==>
            Lookup(tree, repo, t, NameOf(rest)).None?)
    ensures Shape(tree', repo)
  {
    forall name | HasFallback("data", name)
      ensures !(IsFile(tree', BlobPath(repo, "data", name)) && IsFile(tree', FlatPath(repo, name)))
    {
      LookupAfterChange(tree, tree', repo, t, rest, "data", name);
      AtInjective(repo, "data", Place("data", name), "data", [name]);
      if IsFile(tree', BlobPath(repo, "data", name)) {
        assert EntryOk("data", Place("data", name), tree'[BlobPath(repo, "data", name)]) by {
          assert (t, rest) != ("data", Place("data", name)) ==> SameAt(tree, tree', BlobPath(repo, "data", name));
        }
        ShardedIsBlob(name, tree'[BlobPath(repo, "data", name)]);
      }
    }
    forall x, name | At(repo, "data", [x, name]) in tree'
      ensures Open(tree', repo, x)
    {
      assert Open(tree, repo, x) by {
        assert (t, rest) != ("data", [x, name]) ==> SameAt(tree, tree', At(repo, "data", [x, name]));
      }
      assert (t, rest) != ("data", [x]) ==> SameAt(tree, tree', At(repo, "data", [x]));
    }
    ShapeAfterChange(tree, tree', repo, t, rest);
  }

  /** Which names a change can concern: a blob's place carries its name. */
  lemma PlaceNames(t: string, name: string, u: string, other: string)
    ensures NameOf(Place(t, name)) == name
    ensures (u, Place(u, other)) == (t, Place(t, name)) ==> u == t && other == name
    ensures (u, Place(u, other)) == (t, [name]) ==> u == t && other == name && !HasFallback(u, other)
    ensures ("data", [other]) == (t, Place(t, name)) ==> t == "data" && other == name && !HasFallback(t, name)
  {
    assert NameOf(Place(t, name)) == name && NameOf(Place(u, other)) == other && NameOf([name]) == name;
    assert NameOf([other]) == other;
  }

  lemma OpenAfterChange(tree: Tree, tree': Tree, repo: Path, t: string, rest: Path, x: string)
    requires OneChange(tree, tree', repo, t, rest)
        && !(t == "data" && rest == [x] && (IsDir(tree, At(repo, t, rest)) || IsDir(tree', At(repo, t, rest))))
    ensures Open(tree', repo, x) <==> Open(tree, repo, x)
  {
    assert ("data", [x]) != (t, rest) ==> SameAt(tree, tree', At(repo, "data", [x]));
  }

  lemma WriteKeepsShape(tree: Tree, tree': Tree, repo: Path, t: string, name: string)
    requires Shape(tree, repo) && ValidTarget(t, name)
    requires BlobPath(repo, t, name) in tree' && tree'[BlobPath(repo, t, name)].File?
    requires Lookup(tree, repo, t, name).None? && Reachable(tree, repo, t, name)
    requires OneChange(tree, tree', repo, t, Place(t, name))
    ensures Shape(tree', repo)
  {
    hide Shape;
    BlobNamesAreNotTemp(name);
    Places(tree, repo, t, name);
    ShapeAfterFile(tree, tree', repo, t, Place(t, name));
  }

  lemma AfterWrite(tree: Tree, repo: Path, t: string, name: string, data: Bytes, u: string, other: string)
    requires Shape(tree, repo) && ValidTarget(t, name)
    requires Lookup(tree, repo, t, name).None? && Reachable(tree, repo, t, name)
    ensures var tree' := tree[BlobPath(repo, t, name) := File(data)];
      && Lookup(tree', repo, u, other) == (if (u, other) == (t, name) then Some(data) else Lookup(tree, repo, u, other))
      && (Sharded(tree', repo, other) <==> (HasFallback(t, name) && other == name) || Sharded(tree, repo, other))
      && (Open(tree', repo, other) <==> Open(tree, repo, other))
  {
    var tree' := tree[BlobPath(repo, t, name) := File(data)];
    ChangedAt(tree, tree', repo, t, Place(t, name));
    Places(tree, repo, t, name);
    hide Shape, ValidBlobName;
    PlaceNames(t, name, u, other);
    PlaceNames(t, name, "data", other);
    LookupAfterChange(tree, tree', repo, t, Place(t, name), u, other);
    LookupAfterChange(tree, tree', repo, t, Place(t, name), "data", other);
    OpenAfterChange(tree, tree', repo, t, Place(t, name), other);
  }

  /** A stored blob has one place. */
  lemma OnlyPlace(tree: Tree, repo: Path, t: string, name: string)
    requires Shape(tree, repo) && ValidTarget(t, name) && Lookup(tree, repo, t, name).Some?
    ensures PlaceTaken(tree, repo, t, name) == Place(t, name) ==>
      !(HasFallback(t, name) && IsFile(tree, FlatPath(repo, name)))
    ensures PlaceTaken(tree, repo, t, name) != Place(t, name) ==>
      HasFallback(t, name) && BlobPath(repo, t, name) !in tree && IsFile(tree, FlatPath(repo, name))
    ensures IsFile(tree, At(repo, t, PlaceTaken(tree, repo, t, name)))
  {
    Places(tree, repo, t, name);
  }

  lemma RemoveKeepsShape(tree: Tree, tree': Tree, repo: Path, t: string, name: string)
    requires Shape(tree, repo) && ValidTarget(t, name) && Lookup(tree, repo, t, name).Some?
    requires OneChange(tree, tree', repo, t, PlaceTaken(tree, repo, t, name))
    requires At(repo, t, PlaceTaken(tree, repo, t, name)) !in tree'
    ensures Shape(tree', repo)
    ensures !TempName(NameOf(PlaceTaken(tree, repo, t, name)))
  {
    hide Shape;
    BlobNamesAreNotTemp(name);
    OnlyPlace(tree, repo, t, name);
    ShapeAfterFile(tree, tree', repo, t, PlaceTaken(tree, repo, t, name));
  }

  lemma AfterRemove(tree: Tree, repo: Path, t: string, name: string, u: string, other: string)
    requires Shape(tree, repo) && ValidTarget(t, name) && Lookup(tree, repo, t, name).Some?
    ensures var tree' := tree - {At(repo, t, PlaceTaken(tree, repo, t, name))};
      && Lookup(tree', repo, u, other) == (if (u, other) == (t, name) then None else Lookup(tree, repo, u, other))
      && (Sharded(tree', repo, other) <==> !(t == "data" && other == name) && Sharded(tree, repo, other))
      && (Open(tree', repo, other) <==> Open(tree, repo, other))
  {
    var place := PlaceTaken(tree, repo, t, name);
    var tree' := tree - {At(repo, t, place)};
    ChangedAt(tree, tree', repo, t, place);
    OnlyPlace(tree, repo, t, name);
    hide Shape, ValidBlobName, PlaceTaken;
    PlaceNames(t, name, u, other);
    PlaceNames(t, name, "data", other);
    LookupAfterChange(tree, tree', repo, t, place, u, other);
    LookupAfterChange(tree, tree', repo, t, place, "data", other);
    OpenAfterChange(tree, tree', repo, t, place, other);
  }

  lemma DirectoryLeaves(tree: Tree, tree': Tree, repo: Path, x: string, u: string, name: string)
    requires OneChange(tree, tree', repo, "data", [x])
    requires !IsFile(tree, At(repo, "data", [x])) && !IsFile(tree', At(repo, "data", [x]))
    ensures IsFile(tree', BlobPath(repo, u, name)) == IsFile(tree, BlobPath(repo, u, name))
    ensures IsFile(tree', FlatPath(repo, name)) == IsFile(tree, FlatPath(repo, name))
    ensures Lookup(tree', repo, u, name) == Lookup(tree, repo, u, name)
  {
    assert (u, Place(u, name)) != ("data", [x]) ==> SameAt(tree, tree', BlobPath(repo, u, name));
    assert ("data", [name]) != ("data", [x]) ==> SameAt(tree, tree', FlatPath(repo, name));
  }

  lemma DirectoryKeepsShape(tree: Tree, tree': Tree, repo: Path, x: string)
    requires Shape(tree, repo) && OneChange(tree, tree', repo, "data", [x]) && HexPair(x)
    requires !IsFile(tree, At(repo, "data", [x])) && !IsFile(tree', At(repo, "data", [x]))
    requires Open(tree', repo, x) || ShardEmpty(tree, repo, x)
    ensures Shape(tree', repo)
  {
    assert OnePlace(tree', repo) by {
      forall name | HasFallback("data", name)
        ensures !(IsFile(tree', BlobPath(repo, "data", name)) && IsFile(tree', FlatPath(repo, name)))
      {
        DirectoryLeaves(tree, tree', repo, x, "data", name);
      }
    }
    assert ShardsAreDirs(tree', repo) by {
      forall y, name | At(repo, "data", [y, name]) in tree'
        ensures Open(tree', repo, y)
      {
        assert SameAt(tree, tree', At(repo, "data", [y, name]));
        if y != x {
          OpenAfterChange(tree, tree', repo, "data", [x], y);
        }
      }
    }
    ShapeAfterChange(tree, tree', repo, "data", [x]);
  }

  // ----- Where the layout fails

  /** A data blob whose shard directory is not there is out of reach, even if it lies flat. */
  lemma UnstorableMeaning(tree: Tree, repo: Path, t: string, name: string, data: Option<Bytes>)
    requires Shape(tree, repo) && ValidTarget(t, name) && !Reachable(tree, repo, t, name)
    ensures StatBlobResult(tree, repo, t, name) == Err(BadPath)
    ensures GetBlobResult(tree, repo, t, name) == Err(BadPath)
    ensures SaveBlobResult(tree, repo, t, name, data) == (tree, Some(BadPath))
    ensures DeleteBlobResult(tree, repo, t, name) == (tree, Some(BadPath))
    ensures Lookup(tree, repo, t, name).Some? ==> FlatPath(repo, name) in FilesBelow(tree, At(repo, "data", []))
  {
    Places(tree, repo, t, name);
    assert At(repo, "data", []) <= FlatPath(repo, name);
  }

  /** The names for which the layout fails: two hex digits that name a shard directory. The flat
      path is that directory, so an upload is taken for a duplicate and dropped, and a stat answers
      for the directory. A delete removes the directory if nothing is in it. */
  lemma CollidingName(tree: Tree, repo: Path, name: string, data: Option<Bytes>)
    requires Shape(tree, repo) && ValidBlobName(name) && Collides("data", name)
    requires Open(tree, repo, name) && Lookup(tree, repo, "data", name).None?
    ensures SaveBlobResult(tree, repo, "data", name, data) == (tree, None)
    ensures StatBlobResult(tree, repo, "data", name) == Ok(DirectorySize)
    ensures GetBlobResult(tree, repo, "data", name) == Err(Io)
    ensures DeleteBlobResult(tree, repo, "data", name) ==
            if ShardEmpty(tree, repo, name) then (tree - {At(repo, "data", [name])}, None) else (tree, Some(Io))
  {
    assert name[..2] == name;
    SaveMeaning(tree, repo, "data", name, data);
    StatMeaning(tree, repo, "data", name);
    GetMeaning(tree, repo, "data", name);
    DeleteMeaning(tree, repo, "data", name);
  }

  /** What that delete does: no blob is lost from the tree, but every name of the shard is refused
      from then on, including the blobs that lie flat; a listing still shows those. */
  lemma DeletedShardIsRefused(tree: Tree, repo: Path, x: string, name: string, data: Option<Bytes>)
    requires Shape(tree, repo) && ValidBlobName(x) && Collides("data", x) && Open(tree, repo, x)
    requires ShardEmpty(tree, repo, x) && ValidBlobName(name) && |name| >= 2 && name[..2] == x
    ensures var tree' := DeleteBlobResult(tree, repo, "data", x).0;
      && Shape(tree', repo)
      && (forall t, other :: Lookup(tree', repo, t, other) == Lookup(tree, repo, t, other))
      && StatBlobResult(tree', repo, "data", name) == Err(BadPath)
      && GetBlobResult(tree', repo, "data", name) == Err(BadPath)
      && SaveBlobResult(tree', repo, "data", name, data) == (tree', Some(BadPath))
      && DeleteBlobResult(tree', repo, "data", name) == (tree', Some(BadPath))
      && (Lookup(tree, repo, "data", name).Some? ==> FlatPath(repo, name) in FilesBelow(tree', At(repo, "data", [])))
  {
    hide Shape, ValidBlobName, DeleteBlobResult, SaveBlobResult, StatBlobResult;
    hide GetBlobResult, FilesBelow, Lookup, ShardEmpty;
    var tree' := tree - {At(repo, "data", [x])};
    EmptyShardHasNoBlob(tree, repo, x);
    CollidingName(tree, repo, x, data);
    ChangedAt(tree, tree', repo, "data", [x]);
    BlobNamesAreNotTemp(x);
    assert x[..2] == x;
    DirectoryKeepsShape(tree, tree', repo, x);
    forall t, other
      ensures Lookup(tree', repo, t, other) == Lookup(tree, repo, t, other)
    {
      DirectoryLeaves(tree, tree', repo, x, t, other);
    }
    UnstorableMeaning(tree', repo, "data", name, data);
  }

  lemma EmptyShardHasNoBlob(tree: Tree, repo: Path, x: string)
    requires ShardEmpty(tree, repo, x) && |x| == 2 && Open(tree, repo, x)
    ensures Lookup(tree, repo, "data", x).None?
  {
    assert x[..2] == x;
  }

  /** An accepted upload can be read back exactly when its name is not that of a shard directory
      (or a blob of that name was there before). */
  lemma AcceptedIsReadable(tree: Tree, repo: Path, t: string, name: string, data: Bytes)
    requires Shape(tree, repo) && ValidTarget(t, name)
    ensures var (tree', err) := SaveBlobResult(tree, repo, t, name, Some(data));
      (err == None ==> GetBlobResult(tree', repo, t, name).Ok?) <==>
      !(Collides(t, name) && Open(tree, repo, name) && Lookup(tree, repo, t, name).None?)
  {
    hide Shape, ValidBlobName, SaveBlobResult, GetBlobResult;
    assert Collides(t, name) ==> name[..2] == name;
    SaveMeaning(tree, repo, t, name, Some(data));
    GetMeaning(tree, repo, t, name);
    var (tree', err) := SaveBlobResult(tree, repo, t, name, Some(data));
    if tree' != tree {
      ChangedAt(tree, tree', repo, t, Place(t, name));
      WriteKeepsShape(tree, tree', repo, t, name);
      AfterWrite(tree, repo, t, name, data, t, name);
      AfterWrite(tree, repo, t, name, data, t, if HasFallback(t, name) then name[..2] else name);
      GetMeaning(tree', repo, t, name);
    }
  }

  // ----- Creating a repository

  lemma {:induction false} MkdirEachAdds(tree: Tree, dirs: seq<Path>)
    requires AncestorClosed(tree)
    ensures var (tree', ok) := MkdirEach(tree, dirs);
      && AncestorClosed(tree')
      && (forall q :: q in tree ==> q in tree' && tree'[q] == tree[q])
      && (forall q :: q in tree' && q !in tree ==>
            tree'[q] == Dir && exists k :: 0 <= k < |dirs| && IsAncestor(q, dirs[k]))
      && (ok ==> forall k, q :: 0 <= k < |dirs| && IsAncestor(q, dirs[k]) ==> IsDir(tree', q))
    decreases dirs
  {
    if dirs != [] {
      var (next, ok) := MkdirAllResult(tree, dirs[0], {});
      MkdirAllAdds(tree, dirs[0], {});
      if ok {
        MkdirAllMakesPath(tree, dirs[0], {});
        MkdirEachAdds(next, dirs[1..]);
        assert forall k :: 0 <= k < |dirs[1..]| ==> dirs[1..][k] == dirs[k + 1];
      }
    }
  }

  lemma DirsBelowTypes(repo: Path, t: string, rest: Path, k: nat)
    requires k < |RepoDirs(repo)| && rest != [] && IsAncestor(At(repo, t, rest), RepoDirs(repo)[k])
    ensures EntryOk(t, rest, Dir)
    ensures |rest| == 1
  {
    var d := RepoDirs(repo)[k];
    assert |repo| + 2 <= |At(repo, t, rest)| <= |d|;
    if k >= 5 {
      assert d == At(repo, "data", [Hex2(k - 5)]);
      assert At(repo, t, rest) == d;
      AtInjective(repo, t, rest, "data", [Hex2(k - 5)]);
      Hex2IsBijection();
    }
  }

  /** Creating a repository over any directory whose type directories hold only blobs, for instance
      one from before sharding with all its data flat, gives a well-shaped tree with the same blobs
      and all 256 shards. */
  lemma CreateRepoShapes(tree: Tree, repo: Path)
    requires AncestorClosed(tree) && ContentOk(tree, repo)
    ensures var (tree', ok) := MkdirEach(tree, RepoDirs(repo));
      && AncestorClosed(tree')
      && ContentOk(tree', repo)
      && (ok ==> Shape(tree', repo) && forall x :: IsShard(x) ==> Open(tree', repo, x))
      && (forall t, name :: Lookup(tree', repo, t, name) == Lookup(tree, repo, t, name))
  {
    var dirs := RepoDirs(repo);
    var (tree', ok) := MkdirEach(tree, dirs);
    MkdirEachAdds(tree, dirs);
    CreatedContent(tree, tree', repo);
    if ok {
      CreatedDirs(tree', repo);
    }
  }

  lemma CreatedContent(tree: Tree, tree': Tree, repo: Path)
    requires ContentOk(tree, repo)
    requires forall q :: q in tree ==> q in tree' && tree'[q] == tree[q]
    requires forall q :: q in tree' && q !in tree ==>
               tree'[q] == Dir && exists k :: 0 <= k < |RepoDirs(repo)| && IsAncestor(q, RepoDirs(repo)[k])
    ensures ContentOk(tree', repo)
    ensures forall t, name :: Lookup(tree', repo, t, name) == Lookup(tree, repo, t, name)
  {
    hide RepoDirs, IsAncestor, EntryOk;
    forall t, rest | rest != [] && At(repo, t, rest) in tree' && At(repo, t, rest) !in tree
      ensures EntryOk(t, rest, Dir) && |rest| == 1
    {
      var k :| 0 <= k < |RepoDirs(repo)| && IsAncestor(At(repo, t, rest), RepoDirs(repo)[k]);
      DirsBelowTypes(repo, t, rest, k);
    }
    assert forall q :: IsFile(tree', q) <==> IsFile(tree, q);
    forall x, name | At(repo, "data", [x, name]) in tree'
      ensures Open(tree', repo, x)
    {
      assert At(repo, "data", [x, name]) in tree;
      assert Open(tree, repo, x);
    }
  }

  lemma CreatedDirs(tree: Tree, repo: Path)
    requires forall k, q :: 0 <= k < |RepoDirs(repo)| && IsAncestor(q, RepoDirs(repo)[k]) ==> IsDir(tree, q)
    ensures TypeDirsOk(tree, repo) && forall x :: IsShard(x) ==> Open(tree, repo, x)
  {
    var dirs := RepoDirs(repo);
    Hex2IsBijection();
    forall x | IsShard(x)
      ensures Open(tree, repo, x)
    {
      var k := 5 + ShardIndex(x);
      assert dirs[k] == At(repo, "data", [x]);
      assert IsAncestor(dirs[k], dirs[k]);
    }
    forall t | t in BLOB_TYPES
      ensures IsDir(tree, At(repo, t, []))
    {
      var k := if t == "data" then 5 else if t == "keys" then 1 else if t == "locks" then 2
               else if t == "snapshots" then 3 else 4;
      if t == "data" {
        assert dirs[5] == At(repo, "data", [Hex2(0)]);
        assert At(repo, "data", []) <= dirs[5];
      }
      assert IsAncestor(At(repo, t, []), dirs[k]);
    }
  }
}
