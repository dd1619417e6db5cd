/**
 The filesystem backend (internal/storage/filesystem/filesystem.go). Data blobs live in shard
 directories, data/ab/abcd..., and older ones may still lie flat in data/. Over any sequence of
 operations the two layouts together behave like one map that keeps the first value written.
 */
module FileBackend {
  import opened Prelude
  import opened BlobNames
  import opened FileTree

  datatype FsError = NotFound | BadPath | Io

  // ----- Paths

  function At(repo: Path, t: string, rest: Path): Path {
    repo + [t] + rest
  }

  /** The place of a blob below its type directory. */
  function Place(t: string, name: string): Path {
    if t == "data" && |name| >= 2 then [name[..2], name] else [name]
  }

  function BlobPath(repo: Path, t: string, name: string): Path {
    At(repo, t, Place(t, name))
  }

  function FlatPath(repo: Path, name: string): Path {
    At(repo, "data", [name])
  }

  /** Only data blobs with a shard have a second place to look. */
  predicate HasFallback(t: string, name: string) {
    t == "data" && |name| >= 2
  }

  /** validatePath without symbolic links: the path or its parent directory must exist. */
  predicate ValidPath(tree: Tree, p: Path) {
    Exists(tree, p) || IsDir(tree, Parent(p))
  }

  // ----- The operations on a tree

  datatype Stat = FileSize(size: nat) | DirectorySize

  function StatFile(tree: Tree, p: Path): Result<Stat, FsError>
    requires p != []
  {
    if p !in tree then Err(NotFound)
    else if tree[p].Dir? then Ok(DirectorySize) else Ok(FileSize(|tree[p].content|))
  }

  function StatBlobResult(tree: Tree, repo: Path, t: string, name: string): Result<Stat, FsError> {
    var p := BlobPath(repo, t, name);
    if !ValidPath(tree, p) then Err(BadPath)
    else if StatFile(tree, p) == Err(NotFound) && HasFallback(t, name) && ValidPath(tree, FlatPath(repo, name)) then
      StatFile(tree, FlatPath(repo, name))
    else StatFile(tree, p)
  }

  /** Opening and reading; a directory opens but cannot be read. */
  function ReadFile(tree: Tree, p: Path): Result<Bytes, FsError>
    requires p != []
  {
    if p !in tree then Err(NotFound) else if tree[p].Dir? then Err(Io) else Ok(tree[p].content)
  }

  function GetBlobResult(tree: Tree, repo: Path, t: string, name: string): Result<Bytes, FsError> {
    var p := BlobPath(repo, t, name);
    if !ValidPath(tree, p) then Err(BadPath)
    else if ReadFile(tree, p) == Err(NotFound) && HasFallback(t, name) && ValidPath(tree, FlatPath(repo, name)) then
      ReadFile(tree, FlatPath(repo, name))
    else ReadFile(tree, p)
  }

  /** data None: some step of the write fails. */
  function SaveBlobResult(tree: Tree, repo: Path, t: string, name: string, data: Option<Bytes>)
      : (Tree, Option<FsError>)
  {
    var p := BlobPath(repo, t, name);
    if !ValidPath(tree, p) then (tree, Some(BadPath))
    else if p in tree then (tree, None)
    else if HasFallback(t, name) && FlatPath(repo, name) in tree then (tree, None)
    else
      var (made, ok) := MkdirAllResult(tree, Parent(p), {});
      if !ok || data.None? then (made, Some(Io)) else (made[p := File(data.value)], None)
  }

  /** os.Remove: a file or an empty directory. */
  function RemoveResult(tree: Tree, p: Path): (Tree, Option<FsError>) {
    if p !in tree then (tree, Some(NotFound))
    else if tree[p].Dir? && exists q :: q in tree && |q| == |p| + 1 && p <= q then (tree, Some(Io))
    else (tree - {p}, None)
  }

  function DeleteBlobResult(tree: Tree, repo: Path, t: string, name: string): (Tree, Option<FsError>) {
    var p := BlobPath(repo, t, name);
    if !ValidPath(tree, p) then (tree, Some(BadPath))
    else if p !in tree && HasFallback(t, name) && ValidPath(tree, FlatPath(repo, name)) then
      RemoveResult(tree, FlatPath(repo, name))
    else RemoveResult(tree, p)
  }

  // ----- Config and repository

  function ConfigPath(repo: Path): Path {
    At(repo, "config", [])
  }

  function StatConfigResult(tree: Tree, repo: Path): Result<Stat, FsError> {
    var p := ConfigPath(repo);
    if !ValidPath(tree, p) then Err(BadPath) else StatFile(tree, p)
  }

  function GetConfigResult(tree: Tree, repo: Path): Result<Bytes, FsError> {
    var p := ConfigPath(repo);
    if !ValidPath(tree, p) then Err(BadPath) else ReadFile(tree, p)
  }

  /** data None: some step of the write fails. A directory in the way makes the rename fail. */
  function SaveConfigResult(tree: Tree, repo: Path, data: Option<Bytes>): (Tree, Option<FsError>) {
    var p := ConfigPath(repo);
    if !ValidPath(tree, p) then (tree, Some(BadPath))
    else
      var (made, ok) := MkdirAllResult(tree, Parent(p), {});
      if !ok || data.None? || IsDir(made, p) then (made, Some(Io)) else (made[p := File(data.value)], None)
  }

  /** os.RemoveAll. */
  function RemoveAll(tree: Tree, dir: Path): Tree {
    map p | p in tree && !(dir <= p) :: tree[p]
  }

  function DeleteRepoResult(tree: Tree, repo: Path): (Tree, Option<FsError>) {
    if !ValidPath(tree, repo) then (tree, Some(BadPath))
    else if !Exists(tree, repo) then (tree, Some(NotFound))
    else (RemoveAll(tree, repo), None)
  }

  // ----- Creating a repository

  /** The directories in the order in which they are created. */
  function RepoDirs(repo: Path): seq<Path> {
    [repo, At(repo, "keys", []), At(repo, "locks", []), At(repo, "snapshots", []), At(repo, "index", [])]
    + ShardDirs(repo, 256)
  }

  /** data/00, data/01, ... */
  function ShardDirs(repo: Path, n: nat): (dirs: seq<Path>)
    requires n <= 256
    ensures |dirs| == n && forall i :: 0 <= i < n ==> dirs[i] == At(repo, "data", [Hex2(i)])
  {
    if n == 0 then [] else ShardDirs(repo, n - 1) + [At(repo, "data", [Hex2(n - 1)])]
  }

  /** os.MkdirAll on one directory after the other, up to the first failure. */
  function MkdirEach(tree: Tree, dirs: seq<Path>): (Tree, bool)
    decreases dirs
  {
    if dirs == [] then (tree, true)
    else
      var (next, ok) := MkdirAllResult(tree, dirs[0], {});
      if ok then MkdirEach(next, dirs[1..]) else (next, false)
  }

  // ----- Listing

  function NameOf(p: Path): string
    requires p != []
  {
    p[|p| - 1]
  }

  function InfoOf(tree: Tree, p: Path): BlobInfo
    requires IsFile(tree, p)
  {
    BlobInfo(NameOf(p), |tree[p].content|)
  }

  function FilesAmong(tree: Tree, paths: set<Path>): set<Path> {
    set p | p in paths && IsFile(tree, p)
  }

  function FilesBelow(tree: Tree, dir: Path): set<Path> {
    set p | p in tree && |p| > |dir| && dir <= p && IsFile(tree, p)
  }

  function FilesIn(tree: Tree, dir: Path): set<Path> {
    set p | p in tree && |p| == |dir| + 1 && dir <= p && IsFile(tree, p)
  }

  /** blobs lists each of the files once, in some order. */
  ghost predicate Listed(blobs: seq<BlobInfo>, tree: Tree, files: set<Path>) {
    if blobs == [] then files == {}
    else exists p :: p in files && IsFile(tree, p) && blobs[|blobs| - 1] == InfoOf(tree, p)
                     && Listed(blobs[..|blobs| - 1], tree, files - {p})
  }

  lemma ListedSnoc(blobs: seq<BlobInfo>, tree: Tree, files: set<Path>, p: Path)
    requires Listed(blobs, tree, files) && p !in files && IsFile(tree, p)
    ensures Listed(blobs + [InfoOf(tree, p)], tree, files + {p})
  {
    var more := blobs + [InfoOf(tree, p)];
    assert more[..|more| - 1] == blobs && files + {p} - {p} == files;
  }

  // ----- The backend

  /** The step at which a write fails. */
  datatype Fault = NoFault | AtCreate | AtCopy(chunks: nat) | AtSync | AtClose | AtRename

  class Backend {
    var tree: Tree

    constructor (tree: Tree)
      ensures this.tree == tree
    {
      this.tree := tree;
    }

    method CreateRepo(repo: Path) returns (ok: bool)
      modifies this
      ensures (tree, ok) == MkdirEach(old(tree), RepoDirs(repo))
    {
      var dirs := [repo, At(repo, "keys", []), At(repo, "locks", []), At(repo, "snapshots", []), At(repo, "index", [])];
      ghost var fixed := dirs;
      assert dirs == fixed + ShardDirs(repo, 0);
      for i := 0 to 256
        invariant dirs == fixed + ShardDirs(repo, i)
        invariant tree == old(tree)
      {
        AppendAssoc(fixed, ShardDirs(repo, i), [At(repo, "data", [Hex2(i)])]);
        dirs := dirs + [At(repo, "data", [Hex2(i)])];
      }
      assert dirs == RepoDirs(repo);
      for k := 0 to |dirs|
        invariant MkdirEach(tree, dirs[k..]) == MkdirEach(old(tree), dirs)
      {
        assert dirs[k..][1..] == dirs[k + 1..];
        var (next, made) := MkdirAllResult(tree, dirs[k], {});
        tree := next;
        if !made {
          return false;
        }
      }
      return true;
    }

    /** A temporary file is created beside the target, filled chunk by chunk, and renamed. When any
        step fails, as the rename does onto a directory, the temporary file is removed and the tree is
        as it was. tmpName is the unused name that os.CreateTemp picks. */
    method AtomicWrite(p: Path, chunks: seq<Bytes>, fault: Fault, tmpName: string) returns (err: Option<FsError>)
      requires p != [] && IsDir(tree, Parent(p))
      requires Parent(p) + [tmpName] !in tree && Parent(p) + [tmpName] != p
      modifies this
      ensures err == if fault == NoFault && !IsDir(old(tree), p) then None else Some(Io)
      ensures tree == if err == None then old(tree)[p := File(Concat(chunks))] else old(tree)
    {
      if fault == AtCreate {
        return Some(Io);
      }
      var tmp := Parent(p) + [tmpName];
      tree := tree[tmp := File([])];
      ghost var written: Bytes := [];
      assert written + Concat(chunks[0..]) == Concat(chunks) by { assert chunks[0..] == chunks; }
      var i := 0;
      while i < |chunks| && fault != AtCopy(i)
        invariant 0 <= i <= |chunks|
        invariant tree == old(tree)[tmp := File(written)]
        invariant written + Concat(chunks[i..]) == Concat(chunks)
      {
        assert (written + chunks[i]) + Concat(chunks[i + 1..]) == Concat(chunks) by {
          AppendAssoc(written, chunks[i], Concat(chunks[i..][1..]));
          assert chunks[i..][1..] == chunks[i + 1..];
        }
        written := written + chunks[i];
        tree := tree[tmp := File(tree[tmp].content + chunks[i])];
        i := i + 1;
      }
      if fault.AtCopy? || fault == AtSync || fault == AtClose || fault == AtRename || IsDir(tree, p) {
        tree := tree - {tmp};
        assert tree == old(tree);
        return Some(Io);
      }
      assert written == Concat(chunks) by { assert written + [] == written; }
      var content := tree[tmp];
      tree := (tree - {tmp})[p := content];
      assert tree == old(tree)[p := content];
      return None;
    }

    method SaveBlob(repo: Path, t: string, name: string, chunks: seq<Bytes>, fault: Fault, tmpName: string)
        returns (err: Option<FsError>)
      requires AncestorClosed(tree) && tmpName != name
      requires Parent(BlobPath(repo, t, name)) + [tmpName] !in tree
      modifies this
      ensures (tree, err)
           == SaveBlobResult(old(tree), repo, t, name, if fault == NoFault then Some(Concat(chunks)) else None)
    {
      var p := BlobPath(repo, t, name);
      assert p == Parent(p) + [name];
      if !ValidPath(tree, p) {
        return Some(BadPath);
      }
      if p in tree {
        return None;
      }
      if HasFallback(t, name) {
        var up := FlatPath(repo, name);
        if up in tree {
          return None;
        }
      }
      var (made, ok) := MkdirAllResult(tree, Parent(p), {});
      MkdirAllAdds(tree, Parent(p), {});
      tree := made;
      if !ok {
        return Some(Io);
      }
      err := AtomicWrite(p, chunks, fault, tmpName);
    }

    method StatBlob(repo: Path, t: string, name: string) returns (r: Result<Stat, FsError>)
      ensures r == StatBlobResult(tree, repo, t, name)
    {
      var p := BlobPath(repo, t, name);
      if !ValidPath(tree, p) {
        return Err(BadPath);
      }
      r := StatFile(tree, p);
      if r == Err(NotFound) && HasFallback(t, name) {
        var up := FlatPath(repo, name);
        if !ValidPath(tree, up) {
          return;
        }
        r := StatFile(tree, up);
      }
    }

    method GetBlob(repo: Path, t: string, name: string, offset: nat, length: int) returns (r: Result<Bytes, FsError>)
      ensures r == match GetBlobResult(tree, repo, t, name)
                   case Err(e) => Err(e)
                   case Ok(data) => Ok(Section(data, offset, length))
    {
      var p := BlobPath(repo, t, name);
      if !ValidPath(tree, p) {
        return Err(BadPath);
      }
      var f := ReadFile(tree, p);
      if f == Err(NotFound) && HasFallback(t, name) {
        var up := FlatPath(repo, name);
        if ValidPath(tree, up) {
          f := ReadFile(tree, up);
        }
      }
      if f.Err? {
        return Err(f.error);
      }
      return Ok(Section(f.value, offset, length));
    }

    method DeleteBlob(repo: Path, t: string, name: string) returns (err: Option<FsError>)
      modifies this
      ensures (tree, err) == DeleteBlobResult(old(tree), repo, t, name)
    {
      var p := BlobPath(repo, t, name);
      if !ValidPath(tree, p) {
        return Some(BadPath);
      }
      var (after, e) := RemoveResult(tree, p);
      if e == Some(NotFound) && HasFallback(t, name) {
        var up := FlatPath(repo, name);
        if ValidPath(tree, up) {
          var (afterUp, eUp) := RemoveResult(tree, up);
          after, e := afterUp, eUp;
        }
      }
      tree := after;
      return e;
    }

    method StatConfig(repo: Path) returns (r: Result<Stat, FsError>)
      ensures r == StatConfigResult(tree, repo)
    {
      var p := ConfigPath(repo);
      if !ValidPath(tree, p) {
        return Err(BadPath);
      }
      r := StatFile(tree, p);
    }

    method GetConfig(repo: Path) returns (r: Result<Bytes, FsError>)
      ensures r == GetConfigResult(tree, repo)
    {
      var p := ConfigPath(repo);
      if !ValidPath(tree, p) {
        return Err(BadPath);
      }
      r := ReadFile(tree, p);
    }

    /** No existence check: the new config replaces the old one. */
    method SaveConfig(repo: Path, chunks: seq<Bytes>, fault: Fault, tmpName: string) returns (err: Option<FsError>)
      requires AncestorClosed(tree) && tmpName != "config" && repo + [tmpName] !in tree
      modifies this
      ensures (tree, err)
           == SaveConfigResult(old(tree), repo, if fault == NoFault then Some(Concat(chunks)) else None)
    {
      var p := ConfigPath(repo);
      assert Parent(p) == repo && p == repo + ["config"];
      if !ValidPath(tree, p) {
        return Some(BadPath);
      }
      var (made, ok) := MkdirAllResult(tree, repo, {});
      MkdirAllAdds(tree, repo, {});
      tree := made;
      if !ok {
        return Some(Io);
      }
      assert repo + [tmpName] != p by { assert (repo + [tmpName])[|repo|] == tmpName; }
      err := AtomicWrite(p, chunks, fault, tmpName);
    }

    method DeleteRepo(repo: Path) returns (err: Option<FsError>)
      modifies this
      ensures (tree, err) == DeleteRepoResult(old(tree), repo)
    {
      if !ValidPath(tree, repo) {
        return Some(BadPath);
      }
      if !Exists(tree, repo) {
        return Some(NotFound);
      }
      tree := RemoveAll(tree, repo);
      return None;
    }

    /** The walk visits every entry below the type directory and keeps the regular files. */
    method ListBlobs(repo: Path, t: string) returns (r: Result<seq<BlobInfo>, FsError>)
      ensures r.Ok? <==> ValidPath(tree, At(repo, t, []))
      ensures r.Ok? ==> Listed(r.value, tree, FilesBelow(tree, At(repo, t, [])))
    {
      var dir := At(repo, t, []);
      if !ValidPath(tree, dir) {
        return Err(BadPath);
      }
      var blobs: seq<BlobInfo> := [];
      var ahead := set p | p in tree && |p| > |dir| && dir <= p;
      ghost var done: set<Path> := {};
      while ahead != {}
        invariant ahead <= tree.Keys - {[]} && done !! ahead
        invariant done + FilesAmong(tree, ahead) == FilesBelow(tree, dir)
        invariant Listed(blobs, tree, done)
        decreases ahead
      {
        hide Listed;
        var p :| p in ahead;
        if !tree[p].Dir? {
          ListedSnoc(blobs, tree, done, p);
          blobs := blobs + [InfoOf(tree, p)];
          done := done + {p};
        }
        ahead := ahead - {p};
      }
      assert done == FilesBelow(tree, dir);
      return Ok(blobs);
    }
  }
}
