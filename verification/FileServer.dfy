/**
 Append-only runs on the filesystem backend: the same middleware and handlers as in Server, over a
 directory tree. Repositories share one tree there, and one may lie inside another.
 */
module FileServer {
  import opened Prelude
  import opened Text
  import opened RepoPrefix
  import opened Acl
  import opened MapSum
  import opened BlobNames
  import BlobRange
  import opened FileTree
  import opened FileBackend
  import opened BlobStore
  import opened BlobListing
  import opened SimpleStore
  import opened StorageLayout
  import Server

  /** dirSize is the size that the filesystem reports for a directory. */
  datatype Config = Config(server: Server.Config, dirSize: nat)

  // ----- A request on the tree

  datatype Answer = Answer(tree: Tree, status: int, content: Server.Content)

  function Plain(tree: Tree, status: int): Answer {
    Answer(tree, status, Server.Empty)
  }

  function StatusOf(err: Option<FsError>): int {
    match err
    case None => 200
    case Some(NotFound) => 404
    case Some(_) => 500
  }

  function StatAnswer(config: Config, tree: Tree, r: Result<Stat, FsError>): Answer {
    match r
    case Ok(FileSize(n)) => Answer(tree, 200, Server.Length(n))
    case Ok(DirectorySize) => Answer(tree, 200, Server.Length(config.dirSize))
    case Err(e) => Plain(tree, StatusOf(Some(e)))
  }

  /** A directory is opened and fails only when it is read, after the status was sent. */
  function ConfigAnswer(tree: Tree, r: Result<Bytes, FsError>): Answer {
    match r
    case Ok(data) => Answer(tree, 200, Server.Whole(data))
    case Err(Io) => Answer(tree, 200, Server.Unreadable)
    case Err(e) => Plain(tree, StatusOf(Some(e)))
  }

  function DownloadAnswer(config: Config, tree: Tree, r: Result<Bytes, FsError>, header: string): Answer {
    match r
    case Ok(data) =>
      var reply := BlobRange.Serve(BlobRange.Backend.File, Some(data), BlobRange.ParseRange(header));
      Answer(tree, Server.StatusOfDownload(reply), Server.Download(reply))
    case Err(Io) =>
      (match BlobRange.ParseRange(header)
       case None => Answer(tree, 200, Server.Unreadable)
       case Some(range) =>
         if range.offset >= config.dirSize then
           Answer(tree, 416, Server.Download(BlobRange.NotSatisfiable(config.dirSize)))
         else Answer(tree, 206, Server.Unreadable))
    case Err(e) => Plain(tree, StatusOf(Some(e)))
  }

  ghost function ListAnswer(tree: Tree, repo: Path, t: string): Answer {
    var dir := At(repo, t, []);
    BelowIsBelow(tree, dir);
    if !ValidPath(tree, dir) then Plain(tree, 500)
    else Answer(tree, 200, Server.Listing(Values(Infos(tree, dir, FilesBelow(tree, dir)))))
  }

  /** Under an append-only mark a config is saved only when a stat reports that there is none. */
  function SaveConfigAnswer(tree: Tree, repo: Path, guarded: bool, data: Option<Bytes>): Answer {
    var stat := StatConfigResult(tree, repo);
    if guarded && stat.Ok? then Plain(tree, 403)
    else if guarded && stat != Err(NotFound) then Plain(tree, 500)
    else
      var (tree', err) := SaveConfigResult(tree, repo, data);
      Plain(tree', if err.None? then 200 else 500)
  }

  /** A handler on the tree. `marked` is the append-only mark of the request. */
  ghost function Handled(config: Config, tree: Tree, repo: Path, route: Server.Route, marked: bool, q: Server.Call)
      : Answer
  {
    match route
    case CreateRepo =>
      if !q.create then Plain(tree, 400)
      else
        var (tree', ok) := MkdirEach(tree, RepoDirs(repo));
        Plain(tree', if ok then 200 else 500)
    case DeleteRepo =>
      if config.server.appendOnly then Plain(tree, 403)
      else
        var (tree', err) := DeleteRepoResult(tree, repo);
        Plain(tree', StatusOf(err))
    case StatConfig => StatAnswer(config, tree, StatConfigResult(tree, repo))
    case GetConfig => ConfigAnswer(tree, GetConfigResult(tree, repo))
    case SaveConfig => SaveConfigAnswer(tree, repo, config.server.appendOnly || marked, q.body)
    case ListBlobs(t) => if t in BLOB_TYPES then ListAnswer(tree, repo, t) else Plain(tree, 400)
    case StatBlob(t, name) =>
      if ValidTarget(t, name) then StatAnswer(config, tree, StatBlobResult(tree, repo, t, name)) else Plain(tree, 400)
    case GetBlob(t, name) =>
      if ValidTarget(t, name) then DownloadAnswer(config, tree, GetBlobResult(tree, repo, t, name), q.range)
      else Plain(tree, 400)
    case SaveBlob(t, name) =>
      if !ValidTarget(t, name) then Plain(tree, 400)
      else
        var (tree', err) := SaveBlobResult(tree, repo, t, name, q.body);
        Plain(tree', if err.None? then 200 else 500)
    case DeleteBlob(t, name) =>
      if !ValidTarget(t, name) then Plain(tree, 400)
      else if config.server.appendOnly && t != "locks" then Plain(tree, 403)
      else
        var (tree', err) := DeleteBlobResult(tree, repo, t, name);
        Plain(tree', StatusOf(err))
    case NoRoute => Plain(tree, 404)
  }

  /** The access check and the rewrite are those of Server. */
  predicate Permitted(config: Config, q: Server.Call, prefix: string, path: string) {
    Allows(Server.PermissionOf(config.server, q, prefix), Server.ClassifyOperation(q.verb, path))
  }

  ghost function Handle(config: Config, tree: Tree, q: Server.Call): Answer {
    match Rewrite(q.path)
    case Bypass(_) => Plain(tree, 404)
    case BadRequest(_) => Plain(tree, 400)
    case Rewritten(prefix, path) =>
      if !Permitted(config, q, prefix, path) then Plain(tree, 403)
      else Handled(config, tree, Segments(prefix), Server.RouteOf(q.verb, path),
                   Server.MarkedAppendOnly(config.server, q, prefix, Server.ClassifyOperation(q.verb, path)), q)
  }

  /** The handlers that change something. tmpName is the unused name that os.CreateTemp picks; the
      upload is delivered in chunks, and fault is where its write fails. */
  class Handler {
    const config: Config
    const backend: Backend

    constructor (config: Config, backend: Backend)
      ensures this.config == config && this.backend == backend
    {
      this.config, this.backend := config, backend;
    }

    method HandleCreateRepo(repo: Path, q: Server.Call) returns (status: int)
      modifies backend
      ensures Plain(backend.tree, status) == Handled(config, old(backend.tree), repo, Server.CreateRepo, false, q)
    {
      if !q.create {
        return 400;
      }
      var ok := backend.CreateRepo(repo);
      return if ok then 200 else 500;
    }

    method HandleDeleteRepo(repo: Path, q: Server.Call) returns (status: int)
      modifies backend
      ensures Plain(backend.tree, status) == Handled(config, old(backend.tree), repo, Server.DeleteRepo, false, q)
    {
      if config.server.appendOnly {
        return 403;
      }
      var err := backend.DeleteRepo(repo);
      return StatusOf(err);
    }

    method HandleSaveConfig(repo: Path, marked: bool, q: Server.Call, chunks: seq<Bytes>, fault: Fault, tmpName: string)
        returns (status: int)
      requires AncestorClosed(backend.tree) && tmpName != "config" && repo + [tmpName] !in backend.tree
      requires q.body == Written(Some(Concat(chunks)), fault)
      modifies backend
      ensures Plain(backend.tree, status) == Handled(config, old(backend.tree), repo, Server.SaveConfig, marked, q)
    {
      hide AncestorClosed, SaveConfigResult;
      if config.server.appendOnly || marked {
        var stat := backend.StatConfig(repo);
        if stat.Ok? {
          return 403;
        }
        if stat != Err(NotFound) {
          return 500;
        }
      }
      var err := backend.SaveConfig(repo, chunks, fault, tmpName);
      return if err.None? then 200 else 500;
    }

    method HandleSaveBlob(repo: Path, t: string, name: string, q: Server.Call,
                          chunks: seq<Bytes>, fault: Fault, tmpName: string)
        returns (status: int)
      requires AncestorClosed(backend.tree) && tmpName != name
      requires Parent(BlobPath(repo, t, name)) + [tmpName] !in backend.tree
      requires q.body == Written(Some(Concat(chunks)), fault)
      modifies backend
      ensures Plain(backend.tree, status)
           == Handled(config, old(backend.tree), repo, Server.SaveBlob(t, name), false, q)
    {
      hide AncestorClosed, SaveBlobResult;
      if !ValidTarget(t, name) {
        return 400;
      }
      var err := backend.SaveBlob(repo, t, name, chunks, fault, tmpName);
      return if err.None? then 200 else 500;
    }

    method HandleDeleteBlob(repo: Path, t: string, name: string, q: Server.Call) returns (status: int)
      modifies backend
      ensures Plain(backend.tree, status)
           == Handled(config, old(backend.tree), repo, Server.DeleteBlob(t, name), false, q)
    {
      hide DeleteBlobResult;
      if !ValidTarget(t, name) {
        return 400;
      }
      if config.server.appendOnly && t != "locks" {
        return 403;
      }
      var err := backend.DeleteBlob(repo, t, name);
      return StatusOf(err);
    }
  }

  // ----- What stays

  /** Repository r has its config as it was, if it had one, and all blobs but locks with their bytes. */
  ghost predicate Preserved(tree: Tree, tree': Tree, r: Path) {
    && (IsFile(tree, ConfigPath(r)) ==> SameAt(tree, tree', ConfigPath(r)))
    && (forall t, name :: t != "locks" && ValidTarget(t, name) && Lookup(tree, r, t, name).Some? ==>
          Lookup(tree', r, t, name) == Lookup(tree, r, t, name))
  }

  /** There is something in r to be preserved. */
  ghost predicate Holds(tree: Tree, r: Path) {
    || IsFile(tree, ConfigPath(r))
    || exists t, name :: t != "locks" && ValidTarget(t, name) && Lookup(tree, r, t, name).Some?
  }

  /** The request deletes a repository that is there and that r lies in, and is let through. */
  predicate DeletesAround(config: Config, tree: Tree, q: Server.Call, r: Path) {
    match Rewrite(q.path)
    case Rewritten(prefix, path) =>
      && Segments(prefix) <= r && Exists(tree, Segments(prefix))
      && Server.RouteOf(q.verb, path) == Server.DeleteRepo
      && Permitted(config, q, prefix, path) && !config.server.appendOnly
    case _ => false
  }

  lemma SameContentPreserves(tree: Tree, tree': Tree, r: Path)
    requires SameContent(tree, tree', r)
    ensures Preserved(tree, tree', r)
  {
    forall t, name | ValidTarget(t, name)
      ensures Lookup(tree', r, t, name) == Lookup(tree, r, t, name)
    {
      SameLookup(tree, tree', r, t, name);
    }
  }

  // ----- Requests to other repositories

  /** No directory above or in a repository is below a known segment of another one. */
  lemma AncestorsAreOutside(p: Path, k: nat, r: Path, t: string, rest: Path)
    requires IsRepo(p) && IsRepo(r) && p != r && t in KNOWN_SEGMENTS && k < |RepoDirs(p)|
    ensures !IsAncestor(At(r, t, rest), RepoDirs(p)[k])
  {
    var a, d := At(r, t, rest), RepoDirs(p)[k];
    if IsAncestor(a, d) {
      AtElements(r, t, rest);
      RepoDirIs(p, k);
      FirstKnownDecides(p, d, r, t);
      assert false;
    }
  }

  /** The first known segment of a directory of p is at the length of p. */
  lemma FirstKnownDecides(p: Path, d: Path, r: Path, t: string)
    requires IsRepo(p) && IsRepo(r) && |r| < |d| && r <= d && d[|r|] == t && t in KNOWN_SEGMENTS
    requires d == p || (|d| > |p| && p <= d && d[|p|] in KNOWN_SEGMENTS)
    ensures p == r
  {
    assert |r| <= |p| ==> r == p[..|r|];
  }

  lemma RepoDirIs(p: Path, k: nat)
    requires k < |RepoDirs(p)|
    ensures var d := RepoDirs(p)[k];
      d == p || (|d| > |p| && p <= d && d[|p|] in KNOWN_SEGMENTS)
  {
    var d := RepoDirs(p)[k];
    if k >= 5 {
      assert d == At(p, "data", [Hex2(k - 5)]);
    }
  }

  lemma {:induction false} MkdirEachGrows(tree: Tree, dirs: seq<Path>)
    ensures var tree' := MkdirEach(tree, dirs).0;
      && (forall q :: q in tree ==> q in tree' && tree'[q] == tree[q])
      && (forall q :: q in tree' && q !in tree ==>
            tree'[q] == Dir && exists k :: 0 <= k < |dirs| && IsAncestor(q, dirs[k]))
    decreases dirs
  {
    if dirs != [] {
      MkdirAllGrows(tree, dirs[0], {});
      var (next, ok) := MkdirAllResult(tree, dirs[0], {});
      if ok {
        MkdirEachGrows(next, dirs[1..]);
        assert forall k :: 0 <= k < |dirs[1..]| ==> dirs[1..][k] == dirs[k + 1];
      }
    }
  }

  lemma CreateElsewhere(tree: Tree, p: Path, r: Path)
    requires IsRepo(p) && IsRepo(r) && p != r
    ensures SameContent(tree, MkdirEach(tree, RepoDirs(p)).0, r)
  {
    hide IsRepo, RepoDirs, MkdirEach;
    var tree' := MkdirEach(tree, RepoDirs(p)).0;
    MkdirEachGrows(tree, RepoDirs(p));
    forall t, rest | t in KNOWN_SEGMENTS
      ensures SameAt(tree, tree', At(r, t, rest))
    {
      if At(r, t, rest) in tree' && At(r, t, rest) !in tree {
        var k :| 0 <= k < |RepoDirs(p)| && IsAncestor(At(r, t, rest), RepoDirs(p)[k]);
        AncestorsAreOutside(p, k, r, t, rest);
      }
    }
  }

  lemma SaveConfigElsewhere(tree: Tree, p: Path, body: Option<Bytes>, r: Path)
    requires IsRepo(p) && IsRepo(r) && p != r
    ensures SameContent(tree, SaveConfigResult(tree, p, body).0, r)
  {
    assert Parent(ConfigPath(p)) == p == RepoDirs(p)[0];
    MkdirAllGrows(tree, p, {});
    var tree' := SaveConfigResult(tree, p, body).0;
    hide IsRepo, RepoDirs;
    forall t, rest | t in KNOWN_SEGMENTS
      ensures SameAt(tree, tree', At(r, t, rest))
    {
      AncestorsAreOutside(p, 0, r, t, rest);
      PrefixIsDetermined(p, "config", [], r, t, rest);
    }
  }

  lemma DeleteElsewhere(tree: Tree, p: Path, r: Path)
    requires IsRepo(p) && IsRepo(r) && !(p <= r)
    ensures SameContent(tree, RemoveAll(tree, p), r)
  {
    forall t, rest | t in KNOWN_SEGMENTS
      ensures SameAt(tree, RemoveAll(tree, p), At(r, t, rest))
    {
      BelowRepo(p, r, t, rest);
    }
  }

  lemma HandledElsewhere(config: Config, tree: Tree, p: Path, route: Server.Route, marked: bool,
                         q: Server.Call, r: Path)
    requires IsRepo(p) && IsRepo(r) && p != r
    requires route == Server.DeleteRepo && !config.server.appendOnly ==> !(p <= r) || !Exists(tree, p)
    ensures SameContent(tree, Handled(config, tree, p, route, marked, q).tree, r)
  {
    hide IsRepo, RemoveAll, SaveConfigResult, MkdirEach, SaveBlobResult, DeleteBlobResult, ValidTarget, SameContent;
    UnchangedIsSame(tree, r);
    match route
    case CreateRepo => CreateElsewhere(tree, p, r);
    case DeleteRepo =>
      if !config.server.appendOnly && Exists(tree, p) {
        DeleteElsewhere(tree, p, r);
      }
    case SaveConfig => SaveConfigElsewhere(tree, p, q.body, r);
    case SaveBlob(t, name) =>
      if ValidTarget(t, name) {
        BlobElsewhere(tree, p, Save(t, name, q.body, NoFault), r);
      }
    case DeleteBlob(t, name) =>
      if ValidTarget(t, name) {
        BlobElsewhere(tree, p, Delete(t, name), r);
      }
    case _ =>
  }

  lemma UnchangedIsSame(tree: Tree, r: Path)
    ensures SameContent(tree, tree, r)
  {
  }

  lemma BlobElsewhere(tree: Tree, p: Path, op: Op, r: Path)
    requires IsRepo(p) && IsRepo(r) && p != r && Admissible(op)
    ensures SameContent(tree, Step(tree, p, op).0, r)
  {
    hide IsRepo, Step;
    var t, rest := ChangedPlace(tree, p, op);
    OneChangeIsOutside(tree, Step(tree, p, op).0, p, t, rest, r);
  }

  // ----- Appending requests to the repository itself

  /** Files only come. */
  lemma GrowingPreserves(tree: Tree, tree': Tree, r: Path)
    requires forall p :: p in tree ==> SameAt(tree, tree', p)
    requires forall p :: p in tree' && p !in tree ==> tree'[p] == Dir || p == ConfigPath(r)
    ensures Preserved(tree, tree', r)
  {
    forall t, name | ValidTarget(t, name) && Lookup(tree, r, t, name).Some?
      ensures Lookup(tree', r, t, name) == Lookup(tree, r, t, name)
    {
      AtInjective(r, t, Place(t, name), "config", []);
    }
  }

  lemma SavePreserves(tree: Tree, r: Path, t: string, name: string, data: Option<Bytes>)
    requires ValidTarget(t, name)
    ensures Preserved(tree, SaveBlobResult(tree, r, t, name, data).0, r)
  {
    var p, tree' := BlobPath(r, t, name), SaveBlobResult(tree, r, t, name, data).0;
    MkdirAllGrows(tree, Parent(p), {});
    assert !IsAncestor(p, Parent(p));
    AtInjective(r, t, Place(t, name), "config", []);
    assert p !in tree && tree' != tree ==> Lookup(tree, r, t, name).None?;
    forall u, other | ValidTarget(u, other) && Lookup(tree, r, u, other).Some?
      ensures Lookup(tree', r, u, other) == Lookup(tree, r, u, other)
    {
      if (u, other) != (t, name) {
        PlacesDiffer(r, t, name, u, other);
      }
    }
  }

  lemma DeleteLockPreserves(tree: Tree, r: Path, name: string)
    ensures Preserved(tree, DeleteBlobResult(tree, r, "locks", name).0, r)
  {
    var tree' := DeleteBlobResult(tree, r, "locks", name).0;
    AtInjective(r, "locks", [name], "config", []);
    forall t, other | t != "locks"
      ensures Lookup(tree', r, t, other) == Lookup(tree, r, t, other)
    {
      AtInjective(r, "locks", [name], t, Place(t, other));
      AtInjective(r, "locks", [name], "data", [other]);
    }
  }

  lemma SaveConfigPreserves(tree: Tree, r: Path, body: Option<Bytes>)
    requires ConfigPath(r) !in tree
    ensures Preserved(tree, SaveConfigResult(tree, r, body).0, r)
  {
    MkdirAllGrows(tree, Parent(ConfigPath(r)), {});
    GrowingPreserves(tree, SaveConfigResult(tree, r, body).0, r);
  }

  lemma HandledPreserves(config: Config, tree: Tree, r: Path, route: Server.Route, marked: bool, q: Server.Call)
    requires Server.AppendingRoute(config.server, route, marked)
    ensures Preserved(tree, Handled(config, tree, r, route, marked, q).tree, r)
  {
    hide Preserved, MkdirEach, SaveBlobResult, DeleteBlobResult, SaveConfigResult, RepoDirs, ValidTarget;
    GrowingPreserves(tree, tree, r);
    match route
    case CreateRepo =>
      MkdirEachGrows(tree, RepoDirs(r));
      GrowingPreserves(tree, MkdirEach(tree, RepoDirs(r)).0, r);
    case SaveConfig =>
      if ConfigPath(r) !in tree {
        SaveConfigPreserves(tree, r, q.body);
      }
    case SaveBlob(t, name) =>
      if ValidTarget(t, name) {
        SavePreserves(tree, r, t, name, q.body);
      }
    case DeleteBlob(t, name) =>
      if t == "locks" {
        DeleteLockPreserves(tree, r, name);
      }
    case _ =>
  }

  // ----- Runs

  /** Prefixes are the joined segments of repositories. */
  lemma PrefixIsRepo(q: Server.Call)
    requires Rewrite(q.path).Rewritten?
    ensures IsRepo(Segments(Rewrite(q.path).prefix)) && Rewrite(q.path).prefix == Join(Segments(Rewrite(q.path).prefix))
  {
    RewriteSplitsPath(q.path);
    var segs, all := Segments(Rewrite(q.path).prefix), Segments(q.path);
    hide Segments, Rewrite, CleanSegment;
    forall i | 0 <= i < |segs|
      ensures CleanSegment(segs[i]) && segs[i] !in KNOWN_SEGMENTS
    {
      assert segs[i] == all[i] && segs[i] in segs;
    }
  }

  lemma AppendingIsMarked(config: Config, q: Server.Call, prefix: string, path: string)
    requires config.server.appendOnly || Server.PermissionOf(config.server, q, prefix).Rank() <= AppendOnly.Rank()
    requires Permitted(config, q, prefix, path)
    ensures Server.AppendingRoute(config.server, Server.RouteOf(q.verb, path),
              Server.MarkedAppendOnly(config.server, q, prefix, Server.ClassifyOperation(q.verb, path)))
  {
    hide Server.PermissionOf, Server.RouteOf, Server.ClassifyOperation;
    Server.RoutesAreClassified(q.verb, path);
    FullWithoutEngine(config, q, prefix);
  }

  lemma FullWithoutEngine(config: Config, q: Server.Call, prefix: string)
    ensures config.server.engine.None? ==> Server.PermissionOf(config.server, q, prefix) == FullAccess
  {
  }

  /** One request, under which r is at most appended to: r keeps its config and its blobs, byte for
      byte, if and only if the request does not delete a repository around r while r holds any. */
  lemma AppendOnlyStep(config: Config, tree: Tree, q: Server.Call, r: Path)
    requires IsRepo(r) && Server.AtMostAppends(config.server, q, Join(r))
    ensures Preserved(tree, Handle(config, tree, q).tree, r) <==> !(DeletesAround(config, tree, q, r) && Holds(tree, r))
  {
    hide IsRepo, Rewrite, Handled, Preserved, Holds, Permitted, Segments, Server.RouteOf, Server.PermissionOf;
    GrowingPreserves(tree, tree, r);
    if Rewrite(q.path).Rewritten? {
      var Rewritten(prefix, path) := Rewrite(q.path);
      PrefixIsRepo(q);
      if Permitted(config, q, prefix, path) {
        var route := Server.RouteOf(q.verb, path);
        var marked := Server.MarkedAppendOnly(config.server, q, prefix, Server.ClassifyOperation(q.verb, path));
        PermittedStep(config, tree, q, Segments(prefix), prefix, path, route, marked, r);
      }
    }
  }

  lemma PermittedStep(config: Config, tree: Tree, q: Server.Call, p: Path, prefix: string, path: string,
                      route: Server.Route, marked: bool, r: Path)
    requires IsRepo(r) && IsRepo(p) && prefix == Join(p) && Permitted(config, q, prefix, path)
    requires route == Server.RouteOf(q.verb, path)
    requires marked == Server.MarkedAppendOnly(config.server, q, prefix, Server.ClassifyOperation(q.verb, path))
    requires p == r ==>
      config.server.appendOnly || Server.PermissionOf(config.server, q, prefix).Rank() <= AppendOnly.Rank()
    ensures Preserved(tree, Handled(config, tree, p, route, marked, q).tree, r) <==>
      !(p <= r && Exists(tree, p) && route == Server.DeleteRepo && !config.server.appendOnly && Holds(tree, r))
  {
    hide IsRepo, Preserved, Holds, Permitted, Server.RouteOf;
    hide Server.PermissionOf, Server.MarkedAppendOnly, Server.ClassifyOperation;
    if p == r {
      AppendingIsMarked(config, q, prefix, path);
      HandledPreserves(config, tree, r, route, marked, q);
    } else if route == Server.DeleteRepo && !config.server.appendOnly && p <= r && Exists(tree, p) {
      DeletedAround(tree, p, r);
    } else {
      HandledElsewhere(config, tree, p, route, marked, q, r);
      SameContentPreserves(tree, Handled(config, tree, p, route, marked, q).tree, r);
    }
  }

  lemma DeletedAround(tree: Tree, p: Path, r: Path)
    requires IsRepo(p) && IsRepo(r) && p <= r
    ensures Preserved(tree, RemoveAll(tree, p), r) <==> !Holds(tree, r)
  {
    var tree' := RemoveAll(tree, p);
    BelowRepo(p, r, "config", []);
    forall t, name | ValidTarget(t, name)
      ensures Lookup(tree', r, t, name) == None
    {
      DeleteReachesTarget(tree, p, r, t, name);
    }
  }

  ghost function AfterAll(config: Config, tree: Tree, calls: seq<Server.Call>): Tree
    decreases calls
  {
    if calls == [] then tree else AfterAll(config, Handle(config, tree, calls[0]).tree, calls[1..])
  }

  /** At some point of the run a repository around r is deleted while r holds anything. */
  ghost predicate Harmed(config: Config, tree: Tree, calls: seq<Server.Call>, r: Path)
    decreases calls
  {
    calls != [] &&
    ((DeletesAround(config, tree, calls[0], r) && Holds(tree, r))
     || Harmed(config, Handle(config, tree, calls[0]).tree, calls[1..], r))
  }

  lemma PreservedTransitive(a: Tree, b: Tree, c: Tree, r: Path)
    requires Preserved(a, b, r) && Preserved(b, c, r)
    ensures Preserved(a, c, r)
  {
  }

  /** Over every run in which r is at most appended to, while other repositories, around r, inside
      it or beside it, are treated in any way: unless a repository around r is deleted, the config
      of r never changes once set, and no blob of r other than a lock changes or disappears. */
  lemma {:induction false} AppendOnlyRun(config: Config, tree: Tree, calls: seq<Server.Call>, r: Path)
    requires IsRepo(r) && forall i :: 0 <= i < |calls| ==> Server.AtMostAppends(config.server, calls[i], Join(r))
    requires !Harmed(config, tree, calls, r)
    ensures Preserved(tree, AfterAll(config, tree, calls), r)
    decreases calls
  {
    hide IsRepo, Preserved, Holds, DeletesAround, Handle, Server.AtMostAppends;
    if calls == [] {
      GrowingPreserves(tree, tree, r);
    } else {
      var next := Handle(config, tree, calls[0]).tree;
      AppendOnlyStep(config, tree, calls[0], r);
      AppendOnlyRun(config, next, calls[1..], r);
      PreservedTransitive(tree, next, AfterAll(config, next, calls[1..]), r);
    }
  }

  /** That is the exact condition: the run is harmed if and only if one of its requests takes
      something of r away. */
  lemma {:induction false} HarmIsExact(config: Config, tree: Tree, calls: seq<Server.Call>, r: Path)
    requires IsRepo(r) && forall i :: 0 <= i < |calls| ==> Server.AtMostAppends(config.server, calls[i], Join(r))
    ensures Harmed(config, tree, calls, r) <==> exists i :: 0 <= i < |calls| && !PreservedAt(config, tree, calls, r, i)
    decreases calls
  {
    hide IsRepo, Preserved, Holds, DeletesAround, Handle, Server.AtMostAppends;
    if calls != [] {
      var next := Handle(config, tree, calls[0]).tree;
      AppendOnlyStep(config, tree, calls[0], r);
      HarmIsExact(config, next, calls[1..], r);
      FirstMoment(config, tree, calls, r);
      forall i | 0 <= i < |calls| - 1
        ensures PreservedAt(config, tree, calls, r, i + 1) == PreservedAt(config, next, calls[1..], r, i)
      {
        LaterMoment(config, tree, calls, r, i);
      }
      hide PreservedAt, AfterAll;
      if i :| 0 <= i < |calls| - 1 && !PreservedAt(config, next, calls[1..], r, i) {
        assert !PreservedAt(config, tree, calls, r, i + 1);
      }
      if i :| 0 <= i < |calls| && !PreservedAt(config, tree, calls, r, i) {
        assert i > 0 ==> !PreservedAt(config, next, calls[1..], r, i - 1);
      }
    }
  }

  /** Request i preserves r. */
  ghost predicate PreservedAt(config: Config, tree: Tree, calls: seq<Server.Call>, r: Path, i: nat)
    requires i < |calls|
  {
    Preserved(AfterAll(config, tree, calls[..i]), AfterAll(config, tree, calls[..i + 1]), r)
  }

  lemma FirstMoment(config: Config, tree: Tree, calls: seq<Server.Call>, r: Path)
    requires calls != []
    ensures PreservedAt(config, tree, calls, r, 0) == Preserved(tree, Handle(config, tree, calls[0]).tree, r)
  {
    hide Preserved, Handle;
    var first := calls[..1];
    assert calls[..0] == [] && first != [] && first[0] == calls[0] && first[1..] == [];
    assert AfterAll(config, tree, first) == AfterAll(config, Handle(config, tree, first[0]).tree, first[1..]);
  }

  lemma LaterMoment(config: Config, tree: Tree, calls: seq<Server.Call>, r: Path, i: nat)
    requires i + 1 < |calls|
    ensures PreservedAt(config, tree, calls, r, i + 1)
         == PreservedAt(config, Handle(config, tree, calls[0]).tree, calls[1..], r, i)
  {
    hide Preserved, Handle;
    assert calls[..i + 1][1..] == calls[1..][..i] && calls[..i + 2][1..] == calls[1..][..i + 1];
  }

  // ----- It happens

  /** A repository a/b that holds a config, in a server without access rules; someone who may delete
      at the repository a sends DELETE /a. The request does not address a/b at all, so a/b is at most
      appended to, and its config is gone. */
  lemma NestedIsLost(config: Config, tree: Tree, q: Server.Call)
    requires config.server == Server.Config(false, None)
    requires tree == map[["a"] := Dir, ["a", "b"] := Dir, ["a", "b", "config"] := File([1])]
    requires q == Server.Call(Server.DELETE, "/a", ["admin"], "", false, None, "")
    ensures AncestorClosed(tree) && IsRepo(["a", "b"])
    ensures Server.AtMostAppends(config.server, q, Join(["a", "b"])) && Server.KeyOf(q) == Some("a")
    ensures DeletesAround(config, tree, q, ["a", "b"]) && Holds(tree, ["a", "b"])
    ensures !Preserved(tree, Handle(config, tree, q).tree, ["a", "b"])
  {
    NestedTree(tree);
    NestedRequest();
    NestedNames();
    assert Server.KeyOf(q) == Some("a");
    assert Server.PermissionOf(config.server, q, "a") == FullAccess;
    hide Rewrite, Segments, Handle, Preserved, Holds, AncestorClosed, IsRepo, Join;
    AppendOnlyStep(config, tree, q, ["a", "b"]);
  }

  lemma NestedNames()
    ensures Join(["a", "b"]) == "a/b" && Segments("a") == ["a"] && ["a"] <= ["a", "b"]
    ensures IsRepo(["a", "b"])
  {
    var r := ["a", "b"];
    assert Join(["b"]) == "b" && r[1..] == ["b"] && Join(["a"]) == "a";
    assert CleanSegment("a") && CleanSegment("b");
    SegmentsOfJoin(["a"]);
    assert r[..1] == ["a"];
  }

  lemma NestedTree(tree: Tree)
    requires tree == map[["a"] := Dir, ["a", "b"] := Dir, ["a", "b", "config"] := File([1])]
    ensures AncestorClosed(tree) && Holds(tree, ["a", "b"]) && Exists(tree, ["a"])
  {
    assert Parent(["a"]) == [] && Parent(["a", "b"]) == ["a"] && Parent(["a", "b", "config"]) == ["a", "b"];
    assert ConfigPath(["a", "b"]) == ["a", "b", "config"];
  }

  lemma NestedRequest()
    ensures Rewrite("/a") == Rewritten("a", "/")
  {
    hide Segments, Split, CheckedSegments;
    var p, segs := "/a", ["a"];
    assert Join(segs) == "a" && CleanSegment("a");
    SegmentsOfRooted(segs, false);
    assert "/" + Join(segs) + "" == p;
    CheckedIsClean(p);
    assert CheckedSegments(p) == Ok(segs);
    assert segs[1..] == [] && FirstKnown(segs) == 1;
    assert Cut(segs, EndsWithSlash(p)) == Rewritten("a", "/");
  }
}
