/**
 What a client of the filesystem backend sees, by method and path: who is let through, what is answered
 with which status, and what is on disk afterwards; and that reads give back what was written.
 */
module FileAnswers {
  import opened Prelude
  import opened Text
  import opened RepoPrefix
  import opened Acl
  import opened MapSum
  import opened BlobNames
  import BlobRange
  import opened FileTree
  import opened FileBackend
  import opened BlobStore
  import opened BlobListing
  import SimpleStore
  import opened StorageLayout
  import Server
  import opened FileServer
  import opened Addresses
  import ServerAnswers

  // ----- The config file

  /** In a tree as a disk has it, the config is what lies at "config" in the repository: a file is read
      as it is; without the repository's directory the path is refused; a directory cannot be read. */
  lemma ConfigReads(tree: Tree, repo: Path)
    requires AncestorClosed(tree)
    ensures var p := repo + ["config"];
      && (forall data :: GetConfigResult(tree, repo) == Ok(data) <==> p in tree && tree[p] == File(data))
      && (forall n :: StatConfigResult(tree, repo) == Ok(FileSize(n)) <==>
            p in tree && tree[p].File? && |tree[p].content| == n)
      && (GetConfigResult(tree, repo) == Err(NotFound) <==> IsDir(tree, repo) && p !in tree)
      && (StatConfigResult(tree, repo) == Err(NotFound) <==> IsDir(tree, repo) && p !in tree)
      && (GetConfigResult(tree, repo) == Err(BadPath) <==> !IsDir(tree, repo))
      && (StatConfigResult(tree, repo) == Err(BadPath) <==> !IsDir(tree, repo))
      && (GetConfigResult(tree, repo) == Err(Io) <==> p in tree && tree[p].Dir?)
      && (StatConfigResult(tree, repo) == Ok(DirectorySize) <==> p in tree && tree[p].Dir?)
  {
    ConfigPlace(repo);
    var p := ConfigPath(repo);
    assert p in tree ==> IsDir(tree, Parent(p));
  }

  lemma ConfigPlace(repo: Path)
    ensures ConfigPath(repo) == repo + ["config"] && Parent(ConfigPath(repo)) == repo
  {
  }

  /** Saving puts the file there, in place of one that is there, and changes nothing else; it fails,
      and changes nothing, when the upload fails, the repository's directory is missing or a directory
      is in the way. What was saved is read back. */
  lemma ConfigSaves(tree: Tree, repo: Path, data: Option<Bytes>)
    requires AncestorClosed(tree)
    ensures var p, (tree', err) := repo + ["config"], SaveConfigResult(tree, repo, data);
      if !IsDir(tree, repo) then (tree', err) == (tree, Some(BadPath))
      else if data.None? || IsDir(tree, p) then (tree', err) == (tree, Some(Io))
      else
        && err == None && tree' == tree[p := File(data.value)]
        && GetConfigResult(tree', repo) == Ok(data.value)
        && StatConfigResult(tree', repo) == Ok(FileSize(|data.value|))
  {
    ConfigPlace(repo);
    var p := ConfigPath(repo);
    assert p in tree ==> IsDir(tree, Parent(p));
    assert IsDir(tree, repo) ==> MkdirAllResult(tree, repo, {}) == (tree, true);
  }

  // ----- Who is let through

  /** What the access rules give the request in the repository. */
  function Granted(config: Config, q: Server.Call, repo: seq<string>): Permission {
    Server.PermissionOf(config.server, q, Join(repo))
  }

  function WithoutEngine(config: Config): Config {
    config.(server := ServerAnswers.WithoutEngine(config.server))
  }

  /** As on the memory backend; the config that append-only protects is what a stat finds. */
  lemma AccessDecides(config: Config, tree: Tree, q: Server.Call, repo: Path, api: seq<string>, slash: bool)
    requires Names(q.path, repo, api, slash)
    ensures var answer, open := Handle(config, tree, q), Handle(WithoutEngine(config), tree, q);
      match Granted(config, q, repo)
      case Deny => answer == Plain(tree, 403)
      case ReadOnly => answer == if ServerAnswers.Reads(q.verb) then open else Plain(tree, 403)
      case AppendOnly =>
        if q.verb == Server.DELETE && (api == [] || api[0] != "locks") then answer == Plain(tree, 403)
        else if q.verb == Server.POST && api == ["config"] && !slash
                && StatConfigResult(tree, repo) != Err(NotFound) then
          answer == Plain(tree, if StatConfigResult(tree, repo).Ok? then 403 else 500)
        else answer == open
      case FullAccess => answer == open
    ensures Granted(WithoutEngine(config), q, repo) == FullAccess
  {
    hide Rewrite, Names, Server.RouteOf, Handled, Effective, Clean, Segments;
    NamedIsRewritten(q.path, repo, api, slash);
    ServerAnswers.LocksByName(api, slash);
    RepoSegments(repo);
    var route := Server.RouteOf(q.verb, ApiPath(api, slash));
    ServerAnswers.ConfigIsSaved(q.verb, api, slash);
    forall marked | route != Server.SaveConfig || StatConfigResult(tree, repo) == Err(NotFound) || !marked
      ensures Handled(config, tree, repo, route, marked, q)
           == Handled(WithoutEngine(config), tree, repo, route, false, q)
    {
      MarkMatters(config, tree, repo, route, marked, q);
    }
    if route == Server.SaveConfig && StatConfigResult(tree, repo) != Err(NotFound) {
      MarkedConfigIsRefused(config, tree, repo, q);
    }
  }

  lemma RepoSegments(repo: seq<string>)
    requires Clean(repo)
    ensures Segments(Join(repo)) == repo
  {
    CleanFacts(repo);
    SegmentsOfJoin(repo);
  }

  lemma MarkMatters(config: Config, tree: Tree, repo: Path, route: Server.Route, marked: bool, q: Server.Call)
    requires route != Server.SaveConfig || StatConfigResult(tree, repo) == Err(NotFound) || !marked
    ensures Handled(config, tree, repo, route, marked, q)
         == Handled(WithoutEngine(config), tree, repo, route, false, q)
  {
    hide MkdirEach, DeleteRepoResult, StatConfigResult, GetConfigResult, SaveConfigResult, ListAnswer, ValidTarget;
    hide StatBlobResult, GetBlobResult, SaveBlobResult, DeleteBlobResult, BlobRange.Serve, BlobRange.ParseRange;
  }

  lemma MarkedConfigIsRefused(config: Config, tree: Tree, repo: Path, q: Server.Call)
    requires StatConfigResult(tree, repo) != Err(NotFound)
    ensures Handled(config, tree, repo, Server.SaveConfig, true, q)
         == Plain(tree, if StatConfigResult(tree, repo).Ok? then 403 else 500)
  {
    hide StatConfigResult, SaveConfigResult;
  }

  // ----- Past the access check

  lemma ReachedRead(config: Config, tree: Tree, q: Server.Call, repo: Path, api: seq<string>, slash: bool,
                       route: Server.Route)
    requires Names(q.path, repo, api, slash) && route == Server.RouteOf(q.verb, ApiPath(api, slash))
    requires (q.verb == Server.GET || q.verb == Server.HEAD) && Granted(config, q, repo) != Deny
    ensures Handle(config, tree, q) == Handled(config, tree, repo, route, false, q)
  {
    hide Rewrite, Server.RouteOf, Names, Server.PermissionOf, Handled, ApiPath, Clean, Segments;
    NamedIsRewritten(q.path, repo, api, slash);
    RepoSegments(repo);
  }

  lemma ReachedPost(config: Config, tree: Tree, q: Server.Call, repo: Path, api: seq<string>, slash: bool,
                       route: Server.Route)
    requires Names(q.path, repo, api, slash) && route == Server.RouteOf(q.verb, ApiPath(api, slash))
    requires q.verb == Server.POST && (Granted(config, q, repo) == AppendOnly || Granted(config, q, repo) == FullAccess)
    ensures Handle(config, tree, q) == Handled(config, tree, repo, route, Granted(config, q, repo) == AppendOnly, q)
  {
    hide Rewrite, Server.RouteOf, Names, Server.PermissionOf, Handled, ApiPath, Clean, Segments;
    ServerAnswers.EngineAsked(config.server, q, Join(repo));
    NamedIsRewritten(q.path, repo, api, slash);
    RepoSegments(repo);
  }

  lemma ReachedFully(config: Config, tree: Tree, q: Server.Call, repo: Path, api: seq<string>, slash: bool,
                       route: Server.Route)
    requires Names(q.path, repo, api, slash) && route == Server.RouteOf(q.verb, ApiPath(api, slash))
    requires Granted(config, q, repo) == FullAccess
    ensures Handle(config, tree, q) == Handled(config, tree, repo, route, false, q)
  {
    hide Rewrite, Server.RouteOf, Names, Server.PermissionOf, Handled, ApiPath, Clean, Segments;
    NamedIsRewritten(q.path, repo, api, slash);
    RepoSegments(repo);
  }

  lemma ReachedLock(config: Config, tree: Tree, q: Server.Call, repo: Path, api: seq<string>, slash: bool,
                       route: Server.Route)
    requires Names(q.path, repo, api, slash) && route == Server.RouteOf(q.verb, ApiPath(api, slash))
    requires q.verb == Server.DELETE && api != [] && api[0] == "locks" && Granted(config, q, repo) == AppendOnly
    ensures Handle(config, tree, q) == Handled(config, tree, repo, route, true, q)
  {
    hide Rewrite, Server.RouteOf, Names, Server.PermissionOf, Handled, ApiPath, Clean, Segments;
    hide Server.ClassifyOperation;
    ServerAnswers.EngineAsked(config.server, q, Join(repo));
    NamedIsRewritten(q.path, repo, api, slash);
    RepoSegments(repo);
    ServerAnswers.LockOperation(api, slash);
  }

  // ----- Blobs

  /** A GET that asks for no range gives exactly the stored bytes, wherever the blob lies, or 404. Names
      whose shard is missing are refused, and the name of a shard directory opens that directory. */
  lemma Download(config: Config, tree: Tree, q: Server.Call, repo: Path, t: string, name: string)
    requires Names(q.path, repo, [t, name], false) && ValidTarget(t, name) && q.verb == Server.GET
    requires Granted(config, q, repo) != Deny && BlobRange.ParseRange(q.range).None?
    requires Shape(tree, repo)
    ensures Handle(config, tree, q) ==
            if !Reachable(tree, repo, t, name) then Plain(tree, 500)
            else match Lookup(tree, repo, t, name)
              case Some(data) => Answer(tree, 200, Server.Download(BlobRange.Full(data)))
              case None => if Collides(t, name) then Answer(tree, 200, Server.Unreadable) else Plain(tree, 404)
  {
    hide *;
    BlobRoute(q, repo, t, name);
    ReachedRead(config, tree, q, repo, [t, name], false, Server.GetBlob(t, name));
    GetMeaning(tree, repo, t, name);
    DownloadHandled(config, tree, repo, q, t, name);
  }

  /** The handler in terms of what the backend gives. */
  lemma DownloadIsServed(config: Config, tree: Tree, repo: Path, q: Server.Call, t: string, name: string)
    requires ValidTarget(t, name)
    ensures Handled(config, tree, repo, Server.GetBlob(t, name), false, q)
         == DownloadAnswer(config, tree, GetBlobResult(tree, repo, t, name), q.range)
  {
    hide ValidTarget, DownloadAnswer, GetBlobResult;
  }

  lemma DownloadHandled(config: Config, tree: Tree, repo: Path, q: Server.Call, t: string, name: string)
    requires ValidTarget(t, name) && BlobRange.ParseRange(q.range).None?
    ensures Handled(config, tree, repo, Server.GetBlob(t, name), false, q) ==
            match GetBlobResult(tree, repo, t, name)
            case Ok(data) => Answer(tree, 200, Server.Download(BlobRange.Full(data)))
            case Err(Io) => Answer(tree, 200, Server.Unreadable)
            case Err(NotFound) => Plain(tree, 404)
            case Err(BadPath) => Plain(tree, 500)
  {
    DownloadIsServed(config, tree, repo, q, t, name);
    var result := GetBlobResult(tree, repo, t, name);
    if result.Ok? {
      BlobRange.WholeServed(BlobRange.File, result.value);
    }
    hide ValidTarget, GetBlobResult, BlobRange.ParseRange, BlobRange.Serve, Handled;
  }

  /** A GET with a closed range gives what RFC 7233 asks for, under the condition of the memory backend. */
  lemma RangeDownload(config: Config, tree: Tree, q: Server.Call, repo: Path, t: string, name: string,
                      first: string, last: string, start: nat, end: nat)
    requires Names(q.path, repo, [t, name], false) && ValidTarget(t, name) && q.verb == Server.GET
    requires Granted(config, q, repo) != Deny
    requires Shape(tree, repo) && Reachable(tree, repo, t, name) && Lookup(tree, repo, t, name).Some?
    requires |Lookup(tree, repo, t, name).value| <= BlobRange.MAX64
    requires q.range == BlobRange.Header(first, last) && start <= end
    requires BlobRange.Numeral(first, start) && BlobRange.Numeral(last, end)
    ensures var data := Lookup(tree, repo, t, name).value; var reply := BlobRange.Expected(data, start, end);
      Handle(config, tree, q) == Answer(tree, if start < |data| then 206 else 416, Server.Download(reply)) <==>
      !(end == BlobRange.MAX64 && 1 <= start < |data|)
  {
    hide *;
    BlobRoute(q, repo, t, name);
    ReachedRead(config, tree, q, repo, [t, name], false, Server.GetBlob(t, name));
    GetMeaning(tree, repo, t, name);
    var data := Lookup(tree, repo, t, name).value;
    RangeHandled(config, tree, repo, q, t, name, data);
    BlobRange.ClosedRangeServed(BlobRange.File, data, first, last, start, end);
    ServerAnswers.RangeStatus(data, start, end);
  }

  lemma RangeHandled(config: Config, tree: Tree, repo: Path, q: Server.Call, t: string, name: string, data: Bytes)
    requires ValidTarget(t, name) && GetBlobResult(tree, repo, t, name) == Ok(data)
    ensures var reply := BlobRange.Serve(BlobRange.File, Some(data), BlobRange.ParseRange(q.range));
      Handled(config, tree, repo, Server.GetBlob(t, name), false, q)
        == Answer(tree, Server.StatusOfDownload(reply), Server.Download(reply))
  {
    DownloadIsServed(config, tree, repo, q, t, name);
    hide ValidTarget, GetBlobResult, BlobRange.ParseRange, BlobRange.Serve, Handled, Server.StatusOfDownload;
  }

  /** A HEAD gives the length. */
  lemma Probe(config: Config, tree: Tree, q: Server.Call, repo: Path, t: string, name: string)
    requires Names(q.path, repo, [t, name], false) && ValidTarget(t, name) && q.verb == Server.HEAD
    requires Granted(config, q, repo) != Deny && Shape(tree, repo)
    ensures Handle(config, tree, q) ==
            if !Reachable(tree, repo, t, name) then Plain(tree, 500)
            else match Lookup(tree, repo, t, name)
              case Some(data) => Answer(tree, 200, Server.Length(|data|))
              case None =>
                if Collides(t, name) then Answer(tree, 200, Server.Length(config.dirSize)) else Plain(tree, 404)
  {
    hide *;
    BlobRoute(q, repo, t, name);
    ReachedRead(config, tree, q, repo, [t, name], false, Server.StatBlob(t, name));
    StatMeaning(tree, repo, t, name);
    ProbeHandled(config, tree, repo, q, t, name);
  }

  lemma ProbeHandled(config: Config, tree: Tree, repo: Path, q: Server.Call, t: string, name: string)
    requires ValidTarget(t, name)
    ensures Handled(config, tree, repo, Server.StatBlob(t, name), false, q) ==
            match StatBlobResult(tree, repo, t, name)
            case Ok(FileSize(n)) => Answer(tree, 200, Server.Length(n))
            case Ok(DirectorySize) => Answer(tree, 200, Server.Length(config.dirSize))
            case Err(NotFound) => Plain(tree, 404)
            case Err(_) => Plain(tree, 500)
  {
    hide ValidTarget, StatBlobResult;
  }

  /** The repository has `data` under the name, and every other blob as it was. */
  ghost predicate SameButBlob(tree: Tree, tree': Tree, repo: Path, t: string, name: string, data: Option<Bytes>) {
    && Lookup(tree', repo, t, name) == data
    && (forall u, other :: (u, other) != (t, name) ==> Lookup(tree', repo, u, other) == Lookup(tree, repo, u, other))
  }

  /** A POST under a name that is free stores the body, or answers 500 and changes nothing when the
      upload fails; under a name that is taken it changes nothing, and answers 200. */
  lemma Upload(config: Config, tree: Tree, q: Server.Call, repo: Path, t: string, name: string)
    requires Names(q.path, repo, [t, name], false) && ValidTarget(t, name) && q.verb == Server.POST
    requires Granted(config, q, repo) == AppendOnly || Granted(config, q, repo) == FullAccess
    requires Shape(tree, repo)
    ensures var answer := Handle(config, tree, q);
      if !Reachable(tree, repo, t, name) then answer == Plain(tree, 500)
      else if Lookup(tree, repo, t, name).Some? || Collides(t, name) then answer == Plain(tree, 200)
      else if q.body.None? then answer == Plain(tree, 500)
      else
        && answer.status == 200 && answer.content == Server.Empty && Shape(answer.tree, repo)
        && Reachable(answer.tree, repo, t, name)
        && SameButBlob(tree, answer.tree, repo, t, name, q.body)
  {
    hide *;
    BlobRoute(q, repo, t, name);
    ReachedPost(config, tree, q, repo, [t, name], false, Server.SaveBlob(t, name));
    SaveMeaning(tree, repo, t, name, q.body);
    UploadHandled(config, tree, repo, Granted(config, q, repo) == AppendOnly, q, t, name);
    PlainFields();
    if Reachable(tree, repo, t, name) && Lookup(tree, repo, t, name).None? && !Collides(t, name) && q.body.Some? {
      Written(tree, repo, t, name, q.body.value);
    }
  }

  lemma PlainFields()
    ensures forall tree, status :: Plain(tree, status) == Answer(tree, status, Server.Empty)
  {
  }

  lemma UploadHandled(config: Config, tree: Tree, repo: Path, marked: bool, q: Server.Call, t: string, name: string)
    requires ValidTarget(t, name)
    ensures var (tree', err) := SaveBlobResult(tree, repo, t, name, q.body);
      Handled(config, tree, repo, Server.SaveBlob(t, name), marked, q)
        == Plain(tree', if err.None? then 200 else 500)
  {
    hide ValidTarget, SaveBlobResult;
  }

  lemma Written(tree: Tree, repo: Path, t: string, name: string, data: Bytes)
    requires Shape(tree, repo) && ValidTarget(t, name)
    requires Reachable(tree, repo, t, name) && Lookup(tree, repo, t, name).None?
    ensures var tree' := tree[BlobPath(repo, t, name) := File(data)];
      && Shape(tree', repo) && Reachable(tree', repo, t, name)
      && SameButBlob(tree, tree', repo, t, name, Some(data))
  {
    var tree' := tree[BlobPath(repo, t, name) := File(data)];
    ChangedAt(tree, tree', repo, t, Place(t, name));
    WriteKeepsShape(tree, tree', repo, t, name);
    hide Shape, Lookup, ValidTarget;
    forall u, other
      ensures Lookup(tree', repo, u, other) ==
              if (u, other) == (t, name) then Some(data) else Lookup(tree, repo, u, other)
    {
      AfterWrite(tree, repo, t, name, data, u, other);
    }
    AfterWrite(tree, repo, t, name, data, t, if HasFallback(t, name) then name[..2] else name);
  }

  /** A DELETE removes the blob, wherever it lies, or answers 404; the name of a shard directory removes
      that directory, if it is empty. Where only appending is allowed, only locks go. */
  lemma Removal(config: Config, tree: Tree, q: Server.Call, repo: Path, t: string, name: string)
    requires Names(q.path, repo, [t, name], false) && ValidTarget(t, name) && q.verb == Server.DELETE
    requires Granted(config, q, repo) == FullAccess || (t == "locks" && Granted(config, q, repo) == AppendOnly)
    requires Shape(tree, repo)
    ensures var answer := Handle(config, tree, q);
      if config.server.appendOnly && t != "locks" then answer == Plain(tree, 403)
      else if !Reachable(tree, repo, t, name) then answer == Plain(tree, 500)
      else if Lookup(tree, repo, t, name).Some? then
        && answer.status == 200 && answer.content == Server.Empty && Shape(answer.tree, repo)
        && Reachable(answer.tree, repo, t, name)
        && SameButBlob(tree, answer.tree, repo, t, name, None)
      else if !Collides(t, name) then answer == Plain(tree, 404)
      else if ShardEmpty(tree, repo, name) then answer == Plain(tree - {At(repo, "data", [name])}, 200)
      else answer == Plain(tree, 500)
  {
    hide *;
    BlobRoute(q, repo, t, name);
    var marked := Granted(config, q, repo) != FullAccess;
    if marked {
      ReachedLock(config, tree, q, repo, [t, name], false, Server.DeleteBlob(t, name));
    } else {
      ReachedFully(config, tree, q, repo, [t, name], false, Server.DeleteBlob(t, name));
    }
    DeleteMeaning(tree, repo, t, name);
    RemovalHandled(config, tree, repo, marked, q, t, name);
    PlainFields();
    if Reachable(tree, repo, t, name) && Lookup(tree, repo, t, name).Some? {
      Removed(tree, repo, t, name);
    }
  }

  lemma RemovalHandled(config: Config, tree: Tree, repo: Path, marked: bool, q: Server.Call, t: string, name: string)
    requires ValidTarget(t, name)
    ensures var (tree', err) := DeleteBlobResult(tree, repo, t, name);
      Handled(config, tree, repo, Server.DeleteBlob(t, name), marked, q) ==
      if config.server.appendOnly && t != "locks" then Plain(tree, 403)
      else Plain(tree', match err case None => 200 case Some(NotFound) => 404 case Some(_) => 500)
  {
    hide ValidTarget, DeleteBlobResult;
  }

  lemma Removed(tree: Tree, repo: Path, t: string, name: string)
    requires Shape(tree, repo) && ValidTarget(t, name)
    requires Reachable(tree, repo, t, name) && Lookup(tree, repo, t, name).Some?
    ensures var tree' := tree - {At(repo, t, PlaceTaken(tree, repo, t, name))};
      && Shape(tree', repo) && Reachable(tree', repo, t, name)
      && SameButBlob(tree, tree', repo, t, name, None)
  {
    var place := PlaceTaken(tree, repo, t, name);
    var tree' := tree - {At(repo, t, place)};
    ChangedAt(tree, tree', repo, t, place);
    RemoveKeepsShape(tree, tree', repo, t, name);
    hide Shape, Lookup, ValidTarget, PlaceTaken;
    forall u, other
      ensures Lookup(tree', repo, u, other) ==
              if (u, other) == (t, name) then None else Lookup(tree, repo, u, other)
    {
      AfterRemove(tree, repo, t, name, u, other);
    }
    AfterRemove(tree, repo, t, name, t, if HasFallback(t, name) then name[..2] else name);
  }

  /** A GET of "/type/" lists the entries of the simple store that the tree stands for. */
  lemma ListDownload(config: Config, tree: Tree, q: Server.Call, repo: Path, t: string, s: SimpleStore.Simple)
    requires Names(q.path, repo, [t], true) && t in BLOB_TYPES && q.verb == Server.GET
    requires Granted(config, q, repo) != Deny && SimpleStore.StandsFor(tree, repo, s)
    ensures Handle(config, tree, q)
         == Answer(tree, 200, Server.Listing(Values(SimpleStore.Entries(SimpleStore.Filesystem, s, t))))
  {
    hide *;
    ListRoute(q, repo, t);
    ReachedRead(config, tree, q, repo, [t], true, Server.ListBlobs(t));
    BelowIsBelow(tree, At(repo, t, []));
    SimpleStore.ListRefines(tree, repo, s, t);
    ListHandled(config, tree, repo, q, t);
  }

  lemma ListHandled(config: Config, tree: Tree, repo: Path, q: Server.Call, t: string)
    requires t in BLOB_TYPES && AllBelow(tree, At(repo, t, []), FilesBelow(tree, At(repo, t, [])))
    ensures var dir := At(repo, t, []);
      Handled(config, tree, repo, Server.ListBlobs(t), false, q) ==
      if ValidPath(tree, dir) then Answer(tree, 200, Server.Listing(Values(Infos(tree, dir, FilesBelow(tree, dir)))))
      else Plain(tree, 500)
  {
    hide Values, Infos, FilesBelow, ValidPath, AllBelow;
  }

  /** Where the type directory is missing nothing is listed. */
  lemma ListOfMissing(config: Config, tree: Tree, q: Server.Call, repo: Path, t: string)
    requires Names(q.path, repo, [t], true) && t in BLOB_TYPES && q.verb == Server.GET && AncestorClosed(tree)
    requires Granted(config, q, repo) != Deny && repo + [t] !in tree
    ensures Handle(config, tree, q) == if IsDir(tree, repo) then Answer(tree, 200, Server.Listing(multiset{}))
                                       else Plain(tree, 500)
  {
    hide *;
    ListRoute(q, repo, t);
    ReachedRead(config, tree, q, repo, [t], true, Server.ListBlobs(t));
    BelowIsBelow(tree, At(repo, t, []));
    ListHandled(config, tree, repo, q, t);
    MissingType(tree, repo, t);
  }

  lemma MissingType(tree: Tree, repo: Path, t: string)
    requires AncestorClosed(tree) && repo + [t] !in tree
    ensures var dir := At(repo, t, []);
      && (ValidPath(tree, dir) <==> IsDir(tree, repo))
      && AllBelow(tree, dir, FilesBelow(tree, dir)) && Values(Infos(tree, dir, FilesBelow(tree, dir))) == multiset{}
  {
    var dir := At(repo, t, []);
    assert dir == repo + [t] && Parent(dir) == repo;
    NothingBelow(tree, dir);
    BelowIsBelow(tree, dir);
    assert Infos(tree, dir, FilesBelow(tree, dir)) == map[];
  }

  lemma {:induction false} NothingBelow(tree: Tree, dir: Path)
    requires AncestorClosed(tree) && dir != [] && dir !in tree
    ensures forall p :: p in tree ==> !(dir <= p)
    ensures FilesBelow(tree, dir) == {}
  {
    forall p | p in tree
      ensures !(dir <= p)
    {
      if dir <= p {
        DirsAbove(tree, p);
        assert IsAncestor(dir, p);
      }
    }
  }

  /** Blobs of a repository that is not there are refused, and so is its listing. */
  lemma MissingRepo(config: Config, tree: Tree, q: Server.Call, repo: Path, t: string, name: string)
    requires Names(q.path, repo, [t, name], false) && ValidTarget(t, name) && q.verb != Server.OtherVerb
    requires Granted(config, q, repo) == FullAccess && !config.server.appendOnly
    requires AncestorClosed(tree) && repo != [] && repo !in tree
    ensures Handle(config, tree, q) == Plain(tree, 500)
  {
    hide *;
    BlobRoute(q, repo, t, name);
    ReachedFully(config, tree, q, repo, [t, name], false, Server.RouteOf(q.verb, ApiPath([t, name], false)));
    MissingResults(tree, repo, t, name, q.body);
    ProbeHandled(config, tree, repo, q, t, name);
    DownloadRefused(config, tree, repo, q, t, name);
    UploadHandled(config, tree, repo, false, q, t, name);
    RemovalHandled(config, tree, repo, false, q, t, name);
  }

  lemma DownloadRefused(config: Config, tree: Tree, repo: Path, q: Server.Call, t: string, name: string)
    requires ValidTarget(t, name) && GetBlobResult(tree, repo, t, name) == Err(BadPath)
    ensures Handled(config, tree, repo, Server.GetBlob(t, name), false, q) == Plain(tree, 500)
  {
    DownloadIsServed(config, tree, repo, q, t, name);
    hide ValidTarget, GetBlobResult, Handled;
  }

  lemma MissingResults(tree: Tree, repo: Path, t: string, name: string, data: Option<Bytes>)
    requires AncestorClosed(tree) && repo != [] && repo !in tree
    ensures StatBlobResult(tree, repo, t, name) == Err(BadPath)
    ensures GetBlobResult(tree, repo, t, name) == Err(BadPath)
    ensures SaveBlobResult(tree, repo, t, name, data) == (tree, Some(BadPath))
    ensures DeleteBlobResult(tree, repo, t, name) == (tree, Some(BadPath))
  {
    NothingBelow(tree, repo);
    ParentOfPlace(repo, t, name);
    assert repo <= Parent(BlobPath(repo, t, name)) && repo <= BlobPath(repo, t, name);
    assert !ValidPath(tree, BlobPath(repo, t, name));
    hide AncestorClosed, BlobPath, ValidPath;
  }

  // ----- Config

  /** GET and HEAD of "/config": the stored bytes and their number; 404 iff the repository has none. */
  lemma ConfigDownload(config: Config, tree: Tree, q: Server.Call, repo: Path)
    requires Names(q.path, repo, ["config"], false) && (q.verb == Server.GET || q.verb == Server.HEAD)
    requires AncestorClosed(tree)
    requires Granted(config, q, repo) != Deny
    ensures var p, answer := repo + ["config"], Handle(config, tree, q);
      if !IsDir(tree, repo) then answer == Plain(tree, 500)
      else if p !in tree then answer == Plain(tree, 404)
      else if tree[p].Dir? then
        answer == Answer(tree, 200, if q.verb == Server.GET then Server.Unreadable else Server.Length(config.dirSize))
      else if q.verb == Server.GET then answer == Answer(tree, 200, Server.Whole(tree[p].content))
      else answer == Answer(tree, 200, Server.Length(|tree[p].content|))
  {
    hide *;
    ConfigRoutes(q.verb);
    ReachedRead(config, tree, q, repo, ["config"], false,
                if q.verb == Server.GET then Server.GetConfig else Server.StatConfig);
    ConfigHandled(config, tree, repo, q);
  }

  lemma ConfigHandled(config: Config, tree: Tree, repo: Path, q: Server.Call)
    requires AncestorClosed(tree)
    ensures var p := repo + ["config"];
      var got := Handled(config, tree, repo, Server.GetConfig, false, q);
      var size := Handled(config, tree, repo, Server.StatConfig, false, q);
      if !IsDir(tree, repo) then got == size == Plain(tree, 500)
      else if p !in tree then got == size == Plain(tree, 404)
      else match tree[p]
        case Dir =>
          got == Answer(tree, 200, Server.Unreadable) && size == Answer(tree, 200, Server.Length(config.dirSize))
        case File(data) =>
          got == Answer(tree, 200, Server.Whole(data)) && size == Answer(tree, 200, Server.Length(|data|))
  {
    ConfigReads(tree, repo);
    hide AncestorClosed, GetConfigResult, StatConfigResult;
  }

  /** POST of "/config" puts it there, and changes nothing else, unless only appending is allowed and
      there is one, the upload fails, the repository is missing or a directory is in the way; then
      nothing changes. */
  lemma ConfigUpload(config: Config, tree: Tree, q: Server.Call, repo: Path)
    requires Names(q.path, repo, ["config"], false) && q.verb == Server.POST && AncestorClosed(tree)
    requires Granted(config, q, repo) == AppendOnly || Granted(config, q, repo) == FullAccess
    ensures var p, answer := repo + ["config"], Handle(config, tree, q);
      var guarded := config.server.appendOnly || Granted(config, q, repo) == AppendOnly;
      if !IsDir(tree, repo) then answer == Plain(tree, 500)
      else if guarded && p in tree then answer == Plain(tree, 403)
      else if q.body.None? || IsDir(tree, p) then answer == Plain(tree, 500)
      else answer == Plain(tree[p := File(q.body.value)], 200)
  {
    hide *;
    ConfigRoutes(q.verb);
    ReachedPost(config, tree, q, repo, ["config"], false, Server.SaveConfig);
    ConfigUploadHandled(config, tree, repo, Granted(config, q, repo) == AppendOnly, q);
  }

  lemma ConfigUploadHandled(config: Config, tree: Tree, repo: Path, marked: bool, q: Server.Call)
    requires AncestorClosed(tree)
    ensures var p, answer := repo + ["config"], Handled(config, tree, repo, Server.SaveConfig, marked, q);
      if !IsDir(tree, repo) then answer == Plain(tree, 500)
      else if (config.server.appendOnly || marked) && p in tree then answer == Plain(tree, 403)
      else if q.body.None? || IsDir(tree, p) then answer == Plain(tree, 500)
      else answer == Plain(tree[p := File(q.body.value)], 200)
  {
    ConfigReads(tree, repo);
    ConfigSaves(tree, repo, q.body);
    hide AncestorClosed, StatConfigResult, SaveConfigResult, GetConfigResult;
  }

  // ----- Repositories

  /** POST of "/" adds the directories of a repository and nothing else, unless a file is in the way; over
      nothing, or what holds only blobs, that makes a well-shaped repository with all its shards. It does
      nothing unless it is asked to. */
  lemma Creation(config: Config, tree: Tree, q: Server.Call, repo: Path, slash: bool)
    requires Names(q.path, repo, [], slash) && q.verb == Server.POST && AncestorClosed(tree)
    requires Granted(config, q, repo) == AppendOnly || Granted(config, q, repo) == FullAccess
    ensures var answer := Handle(config, tree, q);
      if !q.create then answer == Plain(tree, 400)
      else
        && answer.content == Server.Empty
        && answer.status == (if NothingInTheWay(tree, RepoDirs(repo)) then 200 else 500)
        && (answer.status == 200 && ContentOk(tree, repo) ==>
              Shape(answer.tree, repo) && forall x :: IsShard(x) ==> Open(answer.tree, repo, x))
        && OnlyDirsAdded(tree, answer.tree)
  {
    hide *;
    RootRoutes(q.verb, slash);
    ReachedPost(config, tree, q, repo, [], slash, Server.CreateRepo);
    Created(config, tree, repo, Granted(config, q, repo) == AppendOnly, q);
    CreatedTree(tree, repo);
  }

  lemma CreatedTree(tree: Tree, repo: Path)
    requires AncestorClosed(tree)
    ensures var (tree', ok) := MkdirEach(tree, RepoDirs(repo));
      && ok == NothingInTheWay(tree, RepoDirs(repo))
      && (ok && ContentOk(tree, repo) ==> Shape(tree', repo) && forall x :: IsShard(x) ==> Open(tree', repo, x))
      && OnlyDirsAdded(tree, tree')
  {
    hide *;
    if ContentOk(tree, repo) {
      CreateRepoShapes(tree, repo);
    }
    MkdirEachSucceeds(tree, RepoDirs(repo));
    OnlyDirs(tree, RepoDirs(repo));
  }

  /** Everything is there as it was, and what is new is a directory. */
  ghost predicate OnlyDirsAdded(tree: Tree, tree': Tree) {
    && (forall p :: p in tree ==> p in tree' && tree'[p] == tree[p])
    && (forall p :: p in tree' && p !in tree ==> tree'[p] == Dir)
  }

  /** No file stands where one of the directories, or one above it, has to be. */
  ghost predicate NothingInTheWay(tree: Tree, dirs: seq<Path>) {
    forall k, p :: 0 <= k < |dirs| && IsAncestor(p, dirs[k]) && p in tree ==> tree[p].Dir?
  }

  lemma OnlyDirs(tree: Tree, dirs: seq<Path>)
    ensures OnlyDirsAdded(tree, MkdirEach(tree, dirs).0)
  {
    hide MkdirEach;
    MkdirEachGrows(tree, dirs);
  }

  lemma Created(config: Config, tree: Tree, repo: Path, marked: bool, q: Server.Call)
    ensures var answer := Handled(config, tree, repo, Server.CreateRepo, marked, q);
      var made := MkdirEach(tree, RepoDirs(repo));
      if !q.create then answer == Plain(tree, 400)
      else answer.tree == made.0 && answer.status == (if made.1 then 200 else 500) && answer.content == Server.Empty
  {
    hide MkdirEach, RepoDirs;
  }

  lemma {:induction false} MkdirEachSucceeds(tree: Tree, dirs: seq<Path>)
    requires AncestorClosed(tree)
    ensures MkdirEach(tree, dirs).1 <==> NothingInTheWay(tree, dirs)
    decreases dirs
  {
    if dirs != [] {
      MkdirAllSucceeds(tree, dirs[0], {});
      MkdirAllAdds(tree, dirs[0], {});
      var (next, ok) := MkdirAllResult(tree, dirs[0], {});
      if ok {
        MkdirEachSucceeds(next, dirs[1..]);
        NextDirs(tree, next, dirs);
      }
    }
  }

  lemma NextDirs(tree: Tree, next: Tree, dirs: seq<Path>)
    requires dirs != [] && OnlyDirsAdded(tree, next)
    requires forall p :: IsAncestor(p, dirs[0]) && p in tree ==> tree[p].Dir?
    ensures NothingInTheWay(next, dirs[1..]) <==> NothingInTheWay(tree, dirs)
  {
    if NothingInTheWay(next, dirs[1..]) {
      forall k, p | 0 <= k < |dirs| && IsAncestor(p, dirs[k]) && p in tree
        ensures tree[p].Dir?
      {
        assert k > 0 ==> dirs[1..][k - 1] == dirs[k];
      }
    }
    if NothingInTheWay(tree, dirs) {
      forall k, p | 0 <= k < |dirs[1..]| && IsAncestor(p, dirs[1..][k]) && p in next
        ensures next[p].Dir?
      {
        assert dirs[k + 1] == dirs[1..][k];
      }
    }
  }

  /** DELETE of "/" removes everything in the repository's directory and nothing else. */
  lemma RepoRemoval(config: Config, tree: Tree, q: Server.Call, repo: Path, slash: bool)
    requires Names(q.path, repo, [], slash) && q.verb == Server.DELETE && AncestorClosed(tree)
    requires Granted(config, q, repo) == FullAccess
    ensures var answer := Handle(config, tree, q);
      if config.server.appendOnly then answer == Plain(tree, 403)
      else if repo == [] || repo in tree then
        && answer.status == 200 && answer.content == Server.Empty
        && (forall p :: p in answer.tree <==> p in tree && !(repo <= p))
        && (forall p :: p in answer.tree ==> answer.tree[p] == tree[p])
      else answer == Plain(tree, if IsDir(tree, Parent(repo)) then 404 else 500)
  {
    hide *;
    RootRoutes(q.verb, slash);
    ReachedFully(config, tree, q, repo, [], slash, Server.DeleteRepo);
    RepoRemovalHandled(config, tree, repo, q);
  }

  lemma RepoRemovalHandled(config: Config, tree: Tree, repo: Path, q: Server.Call)
    requires AncestorClosed(tree)
    ensures var answer := Handled(config, tree, repo, Server.DeleteRepo, false, q);
      if config.server.appendOnly then answer == Plain(tree, 403)
      else if repo == [] || repo in tree then
        && answer.status == 200 && answer.content == Server.Empty
        && (forall p :: p in answer.tree <==> p in tree && !(repo <= p))
        && (forall p :: p in answer.tree ==> answer.tree[p] == tree[p])
      else answer == Plain(tree, if IsDir(tree, Parent(repo)) then 404 else 500)
  {
  }

  // ----- Everything else

  lemma Unnamed(config: Config, tree: Tree, q: Server.Call)
    ensures HasPrefix(q.path, "/-/") ==> Handle(config, tree, q) == Plain(tree, 404)
    ensures !HasPrefix(q.path, "/-/") && (exists part :: part in Split(q.path) && ServerAnswers.RefusedPart(part)) ==>
        Handle(config, tree, q) == Plain(tree, 400)
  {
    CheckedIsClean(q.path);
  }

  /** No other method and path has a handler, and bad types and names are refused, as on the memory
      backend. */
  lemma OtherRequests(config: Config, tree: Tree, q: Server.Call, repo: Path, api: seq<string>, slash: bool)
    requires Names(q.path, repo, api, slash)
    requires Granted(config, q, repo) == FullAccess
    ensures var answer := Handle(config, tree, q);
      && (q.verb == Server.OtherVerb ==> answer == Plain(tree, 404))
      && (api == [] && (q.verb == Server.GET || q.verb == Server.HEAD) ==> answer == Plain(tree, 404))
      && (api == ["config"] && !slash && q.verb == Server.DELETE ==> answer == Plain(tree, 404))
      && (|api| == 1 && slash && q.verb != Server.GET ==> answer == Plain(tree, 404))
      && (|api| == 1 && slash && q.verb == Server.GET && api[0] !in BLOB_TYPES ==> answer == Plain(tree, 400))
      && (|api| == 1 && !slash && api[0] != "config" ==> answer == Plain(tree, 404))
      && (|api| >= 2 && q.verb != Server.OtherVerb && !ServerAnswers.NamesTarget(api, slash) ==>
            answer == Plain(tree, 400))
  {
    hide *;
    NamedIsRewritten(q.path, repo, api, slash);
    var route := Server.RouteOf(q.verb, ApiPath(api, slash));
    ReachedFully(config, tree, q, repo, api, slash, route);
    ServerAnswers.OtherRoutes(q.verb, api, slash);
    RefusedHere(config, tree, repo, q, route);
  }

  lemma RefusedHere(config: Config, tree: Tree, r: Path, q: Server.Call, route: Server.Route)
    ensures var answer := Handled(config, tree, r, route, false, q);
      && (route == Server.NoRoute ==> answer == Plain(tree, 404))
      && (route.ListBlobs? && route.t !in BLOB_TYPES ==> answer == Plain(tree, 400))
      && (ServerAnswers.BadTarget(route) ==> answer == Plain(tree, 400))
  {
    hide ValidBlobName;
  }

  // ----- What a request keeps

  /** The request deletes a repository that holds r, or r itself. */
  ghost predicate DeletesOver(q: Server.Call, r: Path) {
    q.verb == Server.DELETE && exists p, slash :: Names(q.path, p, [], slash) && p <= r
  }

  lemma RemovalKeepsClosed(tree: Tree, p: Path)
    requires AncestorClosed(tree) && p != []
    requires p in tree && tree[p].Dir? ==> !exists q :: q in tree && |q| == |p| + 1 && p <= q
    ensures AncestorClosed(tree - {p})
  {
    forall q | q in tree - {p}
      ensures q != [] && IsDir(tree - {p}, Parent(q))
    {
      assert IsDir(tree, Parent(q));
      assert Parent(q) == p ==> |q| == |p| + 1 && p <= q;
    }
  }

  lemma RemoveAllKeepsClosed(tree: Tree, p: Path)
    requires AncestorClosed(tree)
    ensures AncestorClosed(RemoveAll(tree, p))
  {
    forall q | q in RemoveAll(tree, p)
      ensures q != [] && IsDir(RemoveAll(tree, p), Parent(q))
    {
      assert IsDir(tree, Parent(q));
      assert p <= Parent(q) ==> p <= q;
    }
  }

  lemma DeleteKeepsClosed(tree: Tree, repo: Path, t: string, name: string)
    requires AncestorClosed(tree)
    ensures AncestorClosed(DeleteBlobResult(tree, repo, t, name).0)
  {
    hide AncestorClosed;
    if DeleteBlobResult(tree, repo, t, name).0 != tree {
      var p := BlobPath(repo, t, name);
      RemovalClosed(tree, if p in tree || !HasFallback(t, name) then p else FlatPath(repo, name));
    }
  }

  lemma RemovalClosed(tree: Tree, p: Path)
    requires AncestorClosed(tree) && p != []
    ensures AncestorClosed(RemoveResult(tree, p).0)
  {
    if RemoveResult(tree, p).0 != tree {
      RemovalKeepsClosed(tree, p);
    }
  }

  lemma SaveKeepsClosed(tree: Tree, repo: Path, t: string, name: string, data: Option<Bytes>)
    requires AncestorClosed(tree)
    ensures AncestorClosed(SaveBlobResult(tree, repo, t, name, data).0)
  {
    var p := BlobPath(repo, t, name);
    MkdirAllAdds(tree, Parent(p), {});
    assert !IsAncestor(p, Parent(p));
  }

  /** Whatever is asked for, every entry still lies in a directory. */
  lemma RequestKeepsClosed(config: Config, tree: Tree, q: Server.Call)
    requires AncestorClosed(tree)
    ensures AncestorClosed(Handle(config, tree, q).tree)
  {
    hide AncestorClosed, Rewrite, Server.RouteOf, Handled, Permitted, Segments;
    if Rewrite(q.path).Rewritten? {
      var Rewritten(prefix, path) := Rewrite(q.path);
      HandledKeepsClosed(config, tree, Segments(prefix), Server.RouteOf(q.verb, path),
                         Server.MarkedAppendOnly(config.server, q, prefix, Server.ClassifyOperation(q.verb, path)), q);
    }
  }

  lemma HandledKeepsClosed(config: Config, tree: Tree, repo: Path, route: Server.Route, marked: bool, q: Server.Call)
    requires AncestorClosed(tree)
    ensures AncestorClosed(Handled(config, tree, repo, route, marked, q).tree)
  {
    hide AncestorClosed, RemoveAll, SaveConfigResult, MkdirEach, SaveBlobResult, DeleteBlobResult, ValidTarget;
    match route
    case CreateRepo => MkdirEachAdds(tree, RepoDirs(repo));
    case DeleteRepo => RemoveAllKeepsClosed(tree, repo);
    case SaveConfig => ConfigKeepsClosed(tree, repo, q.body);
    case SaveBlob(t, name) => SaveKeepsClosed(tree, repo, t, name, q.body);
    case DeleteBlob(t, name) => DeleteKeepsClosed(tree, repo, t, name);
    case _ =>
  }

  lemma ConfigKeepsClosed(tree: Tree, repo: Path, data: Option<Bytes>)
    requires AncestorClosed(tree)
    ensures AncestorClosed(SaveConfigResult(tree, repo, data).0)
  {
    ConfigPlace(repo);
    ConfigSaves(tree, repo, data);
    var p, tree' := repo + ["config"], SaveConfigResult(tree, repo, data).0;
    hide SaveConfigResult, GetConfigResult, StatConfigResult;
    forall q | q in tree'
      ensures q != [] && IsDir(tree', Parent(q))
    {
      assert q != p ==> IsDir(tree, Parent(q));
    }
  }

  lemma OwnKeepsShape(config: Config, tree: Tree, r: Path, route: Server.Route, marked: bool, q: Server.Call)
    requires AncestorClosed(tree) && Shape(tree, r) && route != Server.DeleteRepo
    ensures Shape(Handled(config, tree, r, route, marked, q).tree, r)
  {
    hide Shape, AncestorClosed, SaveConfigResult, MkdirEach, SaveBlobResult, DeleteBlobResult, ValidTarget;
    match route
    case CreateRepo => CreateKeepsShape(tree, r);
    case SaveConfig => ConfigKeepsShape(tree, r, q.body);
    case SaveBlob(t, name) =>
      if ValidTarget(t, name) {
        StepKeepsShape(tree, r, SimpleStore.Save(t, name, q.body, NoFault));
      }
    case DeleteBlob(t, name) =>
      if ValidTarget(t, name) {
        StepKeepsShape(tree, r, SimpleStore.Delete(t, name));
      }
    case _ =>
  }

  lemma StepKeepsShape(tree: Tree, r: Path, op: SimpleStore.Op)
    requires Shape(tree, r) && SimpleStore.Admissible(op)
    ensures Shape(SimpleStore.Step(tree, r, op).0, r)
  {
    hide Shape, SimpleStore.Step, SimpleStore.Admissible;
    var s := SimpleStore.Abstract(tree, r);
    SimpleStore.EveryShapeStandsFor(tree, r);
    SimpleStore.StepRefines(tree, r, s, op);
  }

  lemma CreateKeepsShape(tree: Tree, r: Path)
    requires AncestorClosed(tree) && Shape(tree, r)
    ensures Shape(MkdirEach(tree, RepoDirs(r)).0, r)
  {
    hide ContentOk, MkdirEach, RepoDirs;
    CreateRepoShapes(tree, r);
    MkdirEachGrows(tree, RepoDirs(r));
    assert forall t :: t in BLOB_TYPES ==> IsDir(tree, At(r, t, []));
  }

  lemma ConfigKeepsShape(tree: Tree, r: Path, data: Option<Bytes>)
    requires AncestorClosed(tree) && Shape(tree, r)
    ensures Shape(SaveConfigResult(tree, r, data).0, r)
  {
    var tree' := SaveConfigResult(tree, r, data).0;
    ConfigSaves(tree, r, data);
    ConfigPlace(r);
    hide Shape, AncestorClosed, SaveConfigResult;
    forall t, rest | t in BLOB_TYPES
      ensures SameAt(tree, tree', At(r, t, rest))
    {
      AtInjective(r, t, rest, "config", []);
    }
    SameShape(tree, tree', r);
  }

  /** A well-shaped repository stays well shaped under every request, to itself, to repositories around
      it, inside it or beside it, that does not delete it or one around it. */
  lemma RequestKeepsShape(config: Config, tree: Tree, q: Server.Call, r: Path)
    requires IsRepo(r) && AncestorClosed(tree) && Shape(tree, r) && !DeletesOver(q, r)
    ensures Shape(Handle(config, tree, q).tree, r)
  {
    hide IsRepo, AncestorClosed, Shape, Rewrite, Server.RouteOf, Handled, Permitted, Segments, DeletesOver;
    if Rewrite(q.path).Rewritten? {
      var Rewritten(prefix, path) := Rewrite(q.path);
      var p, route := Segments(prefix), Server.RouteOf(q.verb, path);
      var marked := Server.MarkedAppendOnly(config.server, q, prefix, Server.ClassifyOperation(q.verb, path));
      PrefixIsRepo(q);
      DeletesWhenRouted(q, r);
      if p == r {
        if route != Server.DeleteRepo {
          OwnKeepsShape(config, tree, r, route, marked, q);
        }
      } else {
        HandledElsewhere(config, tree, p, route, marked, q, r);
        ContentKeepsShape(tree, Handled(config, tree, p, route, marked, q).tree, r);
      }
    }
  }

  lemma ContentKeepsShape(tree: Tree, tree': Tree, r: Path)
    requires SameContent(tree, tree', r) && Shape(tree, r)
    ensures Shape(tree', r)
  {
    hide Shape;
    SameShape(tree, tree', r);
  }

  lemma DeletesWhenRouted(q: Server.Call, r: Path)
    requires Rewrite(q.path).Rewritten? && !DeletesOver(q, r)
    ensures Server.RouteOf(q.verb, Rewrite(q.path).path) == Server.DeleteRepo ==>
        !(Segments(Rewrite(q.path).prefix) <= r)
  {
    PrefixIsRepo(q);
    var p := Segments(Rewrite(q.path).prefix);
    hide Rewrite, Server.RouteOf, Segments, Names;
    var api, slash := ServerAnswers.AddressIn(q, p);
    NamedIsRewritten(q.path, p, api, slash);
    SomeTarget();
    RouteNames(q.verb, api, slash, "keys", "a");
  }

  lemma SomeTarget()
    ensures ValidTarget("keys", "a")
  {
  }

  // ----- Reads give back what was written

  /** The request may take blob (t, name) of the repository away. */
  ghost predicate Removes(q: Server.Call, repo: Path, t: string, name: string) {
    || (q.verb == Server.DELETE && Names(q.path, repo, [t, name], false))
    || DeletesOver(q, repo)
  }

  /** The blob lies in its place. */
  predicate Holding(tree: Tree, repo: Path, t: string, name: string, data: Bytes) {
    BlobPath(repo, t, name) in tree && tree[BlobPath(repo, t, name)] == File(data)
  }

  lemma OwnKeepsFile(config: Config, tree: Tree, r: Path, route: Server.Route, marked: bool, q: Server.Call,
                     t: string, name: string, data: Bytes)
    requires AncestorClosed(tree) && Holding(tree, r, t, name, data) && ValidTarget(t, name)
    requires route != Server.DeleteRepo && route != Server.DeleteBlob(t, name)
    ensures Holding(Handled(config, tree, r, route, marked, q).tree, r, t, name, data)
  {
    hide AncestorClosed, SaveConfigResult, MkdirEach, SaveBlobResult, DeleteBlobResult, RepoDirs, BlobPath;
    match route
    case CreateRepo => MkdirEachGrows(tree, RepoDirs(r));
    case SaveConfig => ConfigKeepsFile(tree, r, q.body, t, name, data);
    case SaveBlob(u, other) => SaveKeepsFile(tree, r, u, other, q.body, t, name, data);
    case DeleteBlob(u, other) => DeleteKeepsFile(tree, r, u, other, t, name, data);
    case _ =>
  }

  lemma ConfigKeepsFile(tree: Tree, r: Path, body: Option<Bytes>, t: string, name: string, data: Bytes)
    requires AncestorClosed(tree) && Holding(tree, r, t, name, data) && ValidTarget(t, name)
    ensures Holding(SaveConfigResult(tree, r, body).0, r, t, name, data)
  {
    ConfigSaves(tree, r, body);
    ConfigPlace(r);
    AtInjective(r, t, Place(t, name), "config", []);
  }

  lemma SaveKeepsFile(tree: Tree, r: Path, u: string, other: string, body: Option<Bytes>,
                      t: string, name: string, data: Bytes)
    requires Holding(tree, r, t, name, data)
    ensures Holding(SaveBlobResult(tree, r, u, other, body).0, r, t, name, data)
  {
    MkdirAllGrows(tree, Parent(BlobPath(r, u, other)), {});
    if (u, other) != (t, name) {
      PlacesDiffer(r, t, name, u, other);
    }
    hide BlobPath, FlatPath;
  }

  lemma DeleteKeepsFile(tree: Tree, r: Path, u: string, other: string, t: string, name: string, data: Bytes)
    requires Holding(tree, r, t, name, data) && (u, other) != (t, name)
    ensures Holding(DeleteBlobResult(tree, r, u, other).0, r, t, name, data)
  {
    PlacesDiffer(r, t, name, u, other);
    hide BlobPath, FlatPath;
  }

  /** A request that does not take the blob away keeps it where it is, with its bytes, and keeps the
      repository well shaped, whichever repository it addresses. */
  lemma RequestKeepsBlob(config: Config, tree: Tree, q: Server.Call, r: Path, t: string, name: string, data: Bytes)
    requires IsRepo(r) && AncestorClosed(tree) && Shape(tree, r) && ValidTarget(t, name)
    requires Holding(tree, r, t, name, data) && !Removes(q, r, t, name)
    ensures var tree' := Handle(config, tree, q).tree;
      AncestorClosed(tree') && Shape(tree', r) && Holding(tree', r, t, name, data)
  {
    assert !DeletesOver(q, r);
    hide *;
    RequestKeepsClosed(config, tree, q);
    RequestKeepsShape(config, tree, q, r);
    RequestKeepsFile(config, tree, q, r, t, name, data);
  }

  lemma RequestKeepsFile(config: Config, tree: Tree, q: Server.Call, r: Path, t: string, name: string, data: Bytes)
    requires IsRepo(r) && AncestorClosed(tree) && ValidTarget(t, name)
    requires Holding(tree, r, t, name, data) && !Removes(q, r, t, name)
    ensures Holding(Handle(config, tree, q).tree, r, t, name, data)
  {
    hide *;
    if Rewrite(q.path).Rewritten? {
      var Rewritten(prefix, path) := Rewrite(q.path);
      var p, route := Segments(prefix), Server.RouteOf(q.verb, path);
      var marked, allowed := HandledOrRefused(config, tree, q, prefix, path);
      PrefixIsRepo(q);
      NoRemovalRouted(q, r, t, name);
      if p == r {
        OwnKeepsFile(config, tree, r, route, marked, q, t, name, data);
      } else {
        HandledElsewhere(config, tree, p, route, marked, q, r);
        ContentKeepsFile(tree, Handled(config, tree, p, route, marked, q).tree, r, t, name, data);
      }
    } else {
      NotHandled(config, tree, q);
    }
    PlainFields();
  }

  lemma HandledOrRefused(config: Config, tree: Tree, q: Server.Call, prefix: string, path: string)
      returns (marked: bool, allowed: bool)
    requires Rewrite(q.path) == Rewritten(prefix, path)
    ensures Handle(config, tree, q) ==
            if allowed then Handled(config, tree, Segments(prefix), Server.RouteOf(q.verb, path), marked, q)
            else Plain(tree, 403)
  {
    hide Rewrite, Server.RouteOf, Handled, Segments, Permitted;
    marked := Server.MarkedAppendOnly(config.server, q, prefix, Server.ClassifyOperation(q.verb, path));
    allowed := Permitted(config, q, prefix, path);
  }

  lemma NotHandled(config: Config, tree: Tree, q: Server.Call)
    requires !Rewrite(q.path).Rewritten?
    ensures Handle(config, tree, q).tree == tree
  {
    hide Rewrite;
  }

  lemma ContentKeepsFile(tree: Tree, tree': Tree, r: Path, t: string, name: string, data: Bytes)
    requires SameContent(tree, tree', r) && ValidTarget(t, name) && Holding(tree, r, t, name, data)
    ensures Holding(tree', r, t, name, data)
  {
    assert SameAt(tree, tree', At(r, t, Place(t, name)));
  }

  lemma NoRemovalRouted(q: Server.Call, r: Path, t: string, name: string)
    requires Rewrite(q.path).Rewritten? && ValidTarget(t, name) && !Removes(q, r, t, name)
    ensures var p, route := Segments(Rewrite(q.path).prefix), Server.RouteOf(q.verb, Rewrite(q.path).path);
      && (route == Server.DeleteRepo ==> !(p <= r))
      && (p == r ==> route != Server.DeleteBlob(t, name))
  {
    DeletesWhenRouted(q, r);
    PrefixIsRepo(q);
    hide Rewrite, Server.RouteOf, Segments, Names, ValidTarget;
    if Segments(Rewrite(q.path).prefix) == r {
      var api, slash := ServerAnswers.AddressIn(q, r);
      NamedIsRewritten(q.path, r, api, slash);
      RouteNames(q.verb, api, slash, t, name);
    }
  }

  lemma {:induction false} RunKeepsBlob(config: Config, tree: Tree, calls: seq<Server.Call>,
                                        r: Path, t: string, name: string, data: Bytes)
    requires IsRepo(r) && AncestorClosed(tree) && Shape(tree, r) && ValidTarget(t, name)
    requires Holding(tree, r, t, name, data) && forall i :: 0 <= i < |calls| ==> !Removes(calls[i], r, t, name)
    ensures var end := AfterAll(config, tree, calls); Shape(end, r) && Holding(end, r, t, name, data)
    decreases calls
  {
    if calls != [] {
      hide IsRepo, AncestorClosed, Shape, Holding, Removes, ValidTarget, Handle;
      RequestKeepsBlob(config, tree, calls[0], r, t, name, data);
      RunKeepsBlob(config, Handle(config, tree, calls[0]).tree, calls[1..], r, t, name, data);
    }
  }

  /** A new upload that is accepted is what every later download gives, until somebody deletes it or a
      repository that it lies in, whatever other requests come in between: further uploads under the
      same name, other repositories around it or inside it, failed requests. */
  lemma UploadIsDownloaded(config: Config, tree: Tree, up: Server.Call, calls: seq<Server.Call>, down: Server.Call,
                           repo: Path, t: string, name: string)
    requires IsRepo(repo) && AncestorClosed(tree) && Shape(tree, repo) && ValidTarget(t, name)
    requires Names(up.path, repo, [t, name], false) && up.verb == Server.POST
    requires Lookup(tree, repo, t, name).None? && !Collides(t, name) && Handle(config, tree, up).status == 200
    requires forall i :: 0 <= i < |calls| ==> !Removes(calls[i], repo, t, name)
    requires Names(down.path, repo, [t, name], false) && Granted(config, down, repo) != Deny
    ensures up.body.Some?
    ensures var end := AfterAll(config, Handle(config, tree, up).tree, calls); var answer := Handle(config, end, down);
      && (down.verb == Server.GET && BlobRange.ParseRange(down.range).None? ==>
            answer == Answer(end, 200, Server.Download(BlobRange.Full(up.body.value))))
      && (down.verb == Server.HEAD ==> answer == Answer(end, 200, Server.Length(|up.body.value|)))
  {
    hide *;
    AcceptedUpload(config, tree, up, repo, t, name);
    RequestKeepsClosed(config, tree, up);
    var end := AfterAll(config, Handle(config, tree, up).tree, calls);
    RunKeepsBlob(config, Handle(config, tree, up).tree, calls, repo, t, name, up.body.value);
    HeldIsFound(end, repo, t, name, up.body.value);
    if down.verb == Server.GET && BlobRange.ParseRange(down.range).None? {
      Download(config, end, down, repo, t, name);
    } else if down.verb == Server.HEAD {
      Probe(config, end, down, repo, t, name);
    }
  }

  lemma HeldIsFound(tree: Tree, repo: Path, t: string, name: string, data: Bytes)
    requires Shape(tree, repo) && ValidTarget(t, name) && Holding(tree, repo, t, name, data)
    ensures Lookup(tree, repo, t, name) == Some(data) && Reachable(tree, repo, t, name)
  {
    hide Shape, ValidTarget;
    Places(tree, repo, t, name);
  }

  lemma LetThrough(config: Config, tree: Tree, q: Server.Call, repo: Path, api: seq<string>, slash: bool)
    requires Names(q.path, repo, api, slash) && Handle(config, tree, q).status == 200 && q.verb == Server.POST
    ensures Granted(config, q, repo) == FullAccess || Granted(config, q, repo) == AppendOnly
  {
    AccessDecides(config, tree, q, repo, api, slash);
    hide Handle, Names, Server.PermissionOf, StatConfigResult;
  }

  lemma AcceptedUpload(config: Config, tree: Tree, up: Server.Call, repo: Path, t: string, name: string)
    requires Shape(tree, repo) && ValidTarget(t, name)
    requires Names(up.path, repo, [t, name], false) && up.verb == Server.POST
    requires Lookup(tree, repo, t, name).None? && !Collides(t, name) && Handle(config, tree, up).status == 200
    ensures up.body.Some? && Shape(Handle(config, tree, up).tree, repo)
    ensures Holding(Handle(config, tree, up).tree, repo, t, name, up.body.value)
  {
    hide *;
    LetThrough(config, tree, up, repo, [t, name], false);
    Upload(config, tree, up, repo, t, name);
    PlainFields();
    UploadPlace(config, tree, up, repo, t, name);
  }

  lemma IsHeld(tree: Tree, repo: Path, t: string, name: string, data: Bytes)
    ensures Holding(tree[BlobPath(repo, t, name) := File(data)], repo, t, name, data)
  {
  }

  lemma UploadPlace(config: Config, tree: Tree, q: Server.Call, repo: Path, t: string, name: string)
    requires Names(q.path, repo, [t, name], false) && ValidTarget(t, name) && q.verb == Server.POST
    requires Granted(config, q, repo) == AppendOnly || Granted(config, q, repo) == FullAccess
    requires Shape(tree, repo)
    requires Lookup(tree, repo, t, name).None? && !Collides(t, name) && Handle(config, tree, q).status == 200
    ensures q.body.Some? && Holding(Handle(config, tree, q).tree, repo, t, name, q.body.value)
  {
    hide *;
    BlobRoute(q, repo, t, name);
    ReachedPost(config, tree, q, repo, [t, name], false, Server.SaveBlob(t, name));
    SaveMeaning(tree, repo, t, name, q.body);
    UploadHandled(config, tree, repo, Granted(config, q, repo) == AppendOnly, q, t, name);
    PlainFields();
    if Reachable(tree, repo, t, name) && q.body.Some? {
      IsHeld(tree, repo, t, name, q.body.value);
    }
  }

  /** A config that was there before a run in which the repository is at most appended to, and none around
      it deleted, is what GET of "/config" answers afterwards, to everybody who may read. */
  lemma ConfigIsServed(config: Config, tree: Tree, calls: seq<Server.Call>, down: Server.Call, repo: Path, data: Bytes)
    requires IsRepo(repo) && AncestorClosed(tree) && repo + ["config"] in tree && tree[repo + ["config"]] == File(data)
    requires forall i :: 0 <= i < |calls| ==> Server.AtMostAppends(config.server, calls[i], Join(repo))
    requires !Harmed(config, tree, calls, repo)
    requires Names(down.path, repo, ["config"], false)
    requires Granted(config, down, repo) != Deny
    ensures var end := AfterAll(config, tree, calls); var answer := Handle(config, end, down);
      && (down.verb == Server.GET ==> answer == Answer(end, 200, Server.Whole(data)))
      && (down.verb == Server.HEAD ==> answer == Answer(end, 200, Server.Length(|data|)))
  {
    hide *;
    AppendOnlyRun(config, tree, calls, repo);
    RunKeepsClosed(config, tree, calls);
    var end := AfterAll(config, tree, calls);
    KeptConfig(tree, end, repo);
    ConfigParent(end, repo);
    if down.verb == Server.GET || down.verb == Server.HEAD {
      ConfigDownload(config, end, down, repo);
    }
  }

  lemma KeptConfig(tree: Tree, tree': Tree, repo: Path)
    requires Preserved(tree, tree', repo)
    ensures var p := repo + ["config"];
      p in tree && tree[p].File? ==> p in tree' && tree'[p] == tree[p]
  {
    ConfigPlace(repo);
  }

  lemma ConfigParent(tree: Tree, repo: Path)
    requires AncestorClosed(tree) && repo + ["config"] in tree
    ensures IsDir(tree, repo)
  {
    assert Parent(repo + ["config"]) == repo;
  }

  lemma {:induction false} RunKeepsClosed(config: Config, tree: Tree, calls: seq<Server.Call>)
    requires AncestorClosed(tree)
    ensures AncestorClosed(AfterAll(config, tree, calls))
    decreases calls
  {
    if calls != [] {
      hide AncestorClosed, Handle;
      RequestKeepsClosed(config, tree, calls[0]);
      RunKeepsClosed(config, Handle(config, tree, calls[0]).tree, calls[1..]);
    }
  }
}
