/**
 A request from end to end over the memory backend: the path rewrite, the access check
 (internal/middleware/acl.go), the route table (internal/api/router.go) and the handlers
 (internal/api/repo.go, config_handler.go, blob.go); and what every run of requests keeps.
 */
module Server {
  import opened Prelude
  import opened Text
  import opened RepoPrefix
  import opened Acl
  import opened BlobNames
  import opened MapSum
  import opened MemoryBackend
  import BlobRange

  datatype Verb = GET | HEAD | POST | DELETE | OtherVerb

  /** body None: the upload fails. ip is used when the identity middleware left no identities. range is
      the Range header, "" when there is none. */
  datatype Call = Call(verb: Verb, path: string, identities: seq<string>, ip: string, create: bool,
                       body: Option<Bytes>, range: string)

  datatype Config = Config(appendOnly: bool, engine: Option<Engine>)

  // ----- Routing

  datatype Route =
    | CreateRepo
    | DeleteRepo
    | StatConfig
    | GetConfig
    | SaveConfig
    | ListBlobs(t: string)
    | StatBlob(t: string, name: string)
    | GetBlob(t: string, name: string)
    | SaveBlob(t: string, name: string)
    | DeleteBlob(t: string, name: string)
    | NoRoute

  function FirstSlash(s: string): (i: nat)
    ensures i <= |s| && (i < |s| ==> s[i] == '/')
    ensures forall j :: 0 <= j < i ==> s[j] != '/'
  {
    if s == "" || s[0] == '/' then 0 else 1 + FirstSlash(s[1..])
  }

  /** The handler for a rewritten path; "/:type/:name" takes the whole rest as the name. */
  function RouteOf(verb: Verb, path: string): Route {
    if path == "/" then
      (match verb case POST => CreateRepo case DELETE => DeleteRepo case _ => NoRoute)
    else if path == "/config" then
      (match verb case HEAD => StatConfig case GET => GetConfig case POST => SaveConfig case _ => NoRoute)
    else if path == "" || path[0] != '/' then NoRoute
    else
      var rest := path[1..];
      var i := FirstSlash(rest);
      if i == |rest| then NoRoute
      else
        var t, name := rest[..i], rest[i + 1..];
        if name == "" then (if verb == GET then ListBlobs(t) else NoRoute)
        else match verb
          case HEAD => StatBlob(t, name)
          case GET => GetBlob(t, name)
          case POST => SaveBlob(t, name)
          case DELETE => DeleteBlob(t, name)
          case OtherVerb => NoRoute
  }

  // ----- Access check

  function ClassifyOperation(verb: Verb, path: string): Operation {
    match verb
    case GET => OpRead
    case HEAD => OpRead
    case DELETE => if HasPrefix(path, "/locks/") || path == "/locks" then OpWrite else OpDelete
    case _ => OpWrite
  }

  function IdentitiesOf(q: Call): seq<string> {
    if q.identities == [] then [q.ip] else q.identities
  }

  /** What the access check sees of a request to a repository; full access without an engine. */
  function PermissionOf(config: Config, q: Call, prefix: string): Permission {
    if config.engine.None? then FullAccess
    else Effective(config.engine.value, IdentitiesOf(q), "/" + prefix)
  }

  /** The mark that the access check leaves on a request that may write but not delete. */
  function MarkedAppendOnly(config: Config, q: Call, prefix: string, op: Operation): bool {
    config.engine.Some? && op == OpWrite && !Allows(PermissionOf(config, q, prefix), OpDelete)
  }

  // ----- Handlers

  /** What a response carries: the length in a header, or the bytes, a download saying which, or the
      entries of a listing, in some order. Unreadable: the body breaks off, as when a directory of the
      filesystem backend was opened in place of a blob. */
  datatype Content =
    | Empty | Length(size: nat) | Whole(data: Bytes) | Download(reply: BlobRange.Reply)
    | Listing(entries: multiset<BlobInfo>) | Unreadable

  datatype Answer = Answer(mem: Mem, status: int, content: Content)

  function Plain(mem: Mem, status: int): Answer {
    Answer(mem, status, Empty)
  }

  function StatusOfDownload(reply: BlobRange.Reply): int {
    match reply
    case NotFound => 404
    case Full(_) => 200
    case Partial(_, _, _, _, _) => 206
    case NotSatisfiable(_) => 416
    case Panic => 500
  }

  function StatusOf(err: Option<Error>): int {
    match err
    case None => 200
    case Some(QuotaExceeded) => 507
    case Some(_) => 500
  }

  /** A handler on the state. `marked` is the append-only mark of the request. */
  ghost function Handled(config: Config, mem: Mem, key: string, route: Route, marked: bool, q: Call): Answer {
    match route
    case CreateRepo =>
      if !q.create then Plain(mem, 400) else Plain(AfterCreateRepo(mem, key), 200)
    case DeleteRepo =>
      if config.appendOnly then Plain(mem, 403)
      else Plain(AfterDeleteRepo(mem, key), if DeleteRepoError(mem, key).None? then 200 else 404)
    case StatConfig =>
      (match ConfigOf(mem, key)
       case None => Plain(mem, 404)
       case Some(data) => Answer(mem, 200, Length(|data|)))
    case GetConfig =>
      (match ConfigOf(mem, key)
       case None => Plain(mem, 404)
       case Some(data) => Answer(mem, 200, Whole(data)))
    case SaveConfig =>
      if (config.appendOnly || marked) && ConfigOf(mem, key).Some? then Plain(mem, 403)
      else Plain(AfterSaveConfig(mem, key, q.body), StatusOf(SaveConfigError(mem, key, q.body)))
    case ListBlobs(t) =>
      if t !in BLOB_TYPES then Plain(mem, 400)
      else Answer(mem, 200, Listing(Values(BucketInfos(BucketOf(mem, key, t)))))
    case StatBlob(t, name) =>
      if !ValidTarget(t, name) then Plain(mem, 400)
      else
        (match BlobOf(mem, key, t, name)
         case None => Plain(mem, 404)
         case Some(data) => Answer(mem, 200, Length(|data|)))
    case GetBlob(t, name) =>
      if !ValidTarget(t, name) then Plain(mem, 400)
      else
        var reply := BlobRange.Serve(BlobRange.Memory, BlobOf(mem, key, t, name), BlobRange.ParseRange(q.range));
        Answer(mem, StatusOfDownload(reply), Download(reply))
    case SaveBlob(t, name) =>
      if !ValidTarget(t, name) then Plain(mem, 400)
      else Plain(AfterSaveBlob(mem, key, t, name, q.body), StatusOf(SaveBlobError(mem, key, t, name, q.body)))
    case DeleteBlob(t, name) =>
      if !ValidTarget(t, name) then Plain(mem, 400)
      else if config.appendOnly && t != "locks" then Plain(mem, 403)
      else Plain(AfterDeleteBlob(mem, key, t, name), if BlobOf(mem, key, t, name).Some? then 200 else 404)
    case NoRoute => Plain(mem, 404)
  }

  /** A whole request. System routes never reach these handlers. */
  ghost function Handle(config: Config, mem: Mem, q: Call): Answer {
    match Rewrite(q.path)
    case Bypass(_) => Plain(mem, 404)
    case BadRequest(_) => Plain(mem, 400)
    case Rewritten(prefix, path) =>
      var op := ClassifyOperation(q.verb, path);
      if !Allows(PermissionOf(config, q, prefix), op) then Plain(mem, 403)
      else Handled(config, mem, prefix, RouteOf(q.verb, path), MarkedAppendOnly(config, q, prefix, op), q)
  }

  /** The server as the source runs it: middleware rewriting the request in place, then the engine,
      then a handler that checks first and changes the backend afterwards. */
  class Handler {
    const config: Config
    const backend: Backend

    constructor (config: Config, backend: Backend)
      ensures this.config == config && this.backend == backend
    {
      this.config, this.backend := config, backend;
    }

    method ServeHTTP(q: Call) returns (status: int, content: Content)
      requires backend.Valid()
      modifies backend
      ensures backend.Valid()
      ensures Answer(backend.State(), status, content) == Handle(config, old(backend.State()), q)
    {
      hide WellFormed, Handled;
      var req := new Request(q.path);
      var refused := req.ApplyRepoPrefix();
      if refused.Some? {
        return 400, Empty;
      }
      if IsSystem(q.path) {
        return 404, Empty;
      }
      var marked := false;
      var op := ClassifyOperation(q.verb, req.path);
      if config.engine.Some? {
        var identities := IdentitiesOf(q);
        var allowed := config.engine.value.Allowed(identities, "/" + req.prefix, op);
        if !allowed {
          return 403, Empty;
        }
        if op == OpWrite {
          var mayDelete := config.engine.value.Allowed(identities, "/" + req.prefix, OpDelete);
          marked := !mayDelete;
        }
      }
      status, content := Dispatch(req.prefix, RouteOf(q.verb, req.path), marked, q);
    }

    method Dispatch(key: string, route: Route, marked: bool, q: Call)
        returns (status: int, content: Content)
      requires backend.Valid()
      modifies backend
      ensures backend.Valid()
      ensures Answer(backend.State(), status, content) == Handled(config, old(backend.State()), key, route, marked, q)
    {
      hide WellFormed;
      match route
      case CreateRepo =>
        if !q.create {
          return 400, Empty;
        }
        var _ := backend.CreateRepo(key);
        return 200, Empty;
      case DeleteRepo =>
        if config.appendOnly {
          return 403, Empty;
        }
        var err := backend.DeleteRepo(key);
        return if err.None? then 200 else 404, Empty;
      case StatConfig =>
        var size := backend.StatConfig(key);
        if size.Err? {
          return 404, Empty;
        }
        return 200, Length(size.value);
      case GetConfig =>
        var data := backend.GetConfig(key);
        if data.Err? {
          return 404, Empty;
        }
        return 200, Whole(data.value);
      case SaveConfig =>
        content := Empty;
        status := HandleSaveConfig(key, marked, q);
      case ListBlobs(t) =>
        if t !in BLOB_TYPES {
          return 400, Empty;
        }
        var blobs := backend.ListBlobs(key, t);
        ListingIsInfos(blobs, BucketOf(backend.State(), key, t));
        return 200, Listing(multiset(blobs));
      case StatBlob(t, name) =>
        if !ValidTarget(t, name) {
          return 400, Empty;
        }
        var size := backend.StatBlob(key, t, name);
        if size.Err? {
          return 404, Empty;
        }
        return 200, Length(size.value);
      case GetBlob(t, name) =>
        status, content := HandleGetBlob(key, t, name, q);
      case SaveBlob(t, name) =>
        content := Empty;
        status := HandleSaveBlob(key, t, name, q);
      case DeleteBlob(t, name) =>
        if !ValidTarget(t, name) {
          return 400, Empty;
        }
        if config.appendOnly && t != "locks" {
          return 403, Empty;
        }
        var err := backend.DeleteBlob(key, t, name);
        return if err.None? then 200 else 404, Empty;
      case NoRoute =>
        return 404, Empty;
    }

    method HandleGetBlob(key: string, t: string, name: string, q: Call) returns (status: int, content: Content)
      ensures Answer(backend.State(), status, content)
           == Handled(config, backend.State(), key, GetBlob(t, name), false, q)
    {
      hide BlobRange.Serve, BlobOf, BlobRange.ParseRange;
      if !ValidTarget(t, name) {
        return 400, Empty;
      }
      var range := BlobRange.ParseRange(q.range);
      var reply := ServeDownload(key, t, name, range);
      return StatusOfDownload(reply), Download(reply);
    }

    /** With a range: stat, check the start, clamp, read; without one, read. */
    method ServeDownload(key: string, t: string, name: string, range: Option<BlobRange.RangeSpec>)
        returns (reply: BlobRange.Reply)
      requires range.Some? ==> 0 <= range.value.offset
      ensures reply == BlobRange.Serve(BlobRange.Memory, BlobOf(backend.State(), key, t, name), range)
    {
      hide BlobOf, BlobRange.Wrap;
      if range.None? {
        var whole := backend.GetBlob(key, t, name, 0, 0);
        return if whole.Err? then BlobRange.Reply.NotFound else BlobRange.Full(whole.value);
      }
      var offset, length := range.value.offset, range.value.length;
      var size := backend.StatBlob(key, t, name);
      if size.Err? {
        return BlobRange.Reply.NotFound;
      }
      if offset >= size.value {
        return BlobRange.NotSatisfiable(size.value);
      }
      if length <= 0 || BlobRange.Wrap(offset + length) > size.value {
        length := size.value - offset;
      }
      var body := backend.GetBlob(key, t, name, offset, length);
      if body.Err? {
        return BlobRange.Panic;
      }
      var end := BlobRange.Wrap(BlobRange.Wrap(offset + length) - 1);
      return BlobRange.Partial(offset, end, size.value, length, body.value);
    }

    method HandleSaveConfig(key: string, marked: bool, q: Call) returns (status: int)
      requires backend.Valid()
      modifies backend
      ensures backend.Valid()
      ensures Plain(backend.State(), status) == Handled(config, old(backend.State()), key, SaveConfig, marked, q)
    {
      hide WellFormed, AfterSaveConfig, SaveConfigError;
      if config.appendOnly || marked {
        var size := backend.StatConfig(key);
        if size.Ok? {
          return 403;
        }
      }
      var body := Body(q);
      var err := backend.SaveConfig(key, body);
      return StatusOf(err);
    }

    method HandleSaveBlob(key: string, t: string, name: string, q: Call) returns (status: int)
      requires backend.Valid()
      modifies backend
      ensures backend.Valid()
      ensures Plain(backend.State(), status) == Handled(config, old(backend.State()), key, SaveBlob(t, name), false, q)
    {
      hide WellFormed, AfterSaveBlob, SaveBlobError;
      if !ValidTarget(t, name) {
        return 400;
      }
      var body := Body(q);
      var err := backend.SaveBlob(key, t, name, body);
      return StatusOf(err);
    }

    method Body(q: Call) returns (r: CountingReader)
      ensures fresh(r) && r.Content() == q.body
    {
      r := new CountingReader(if q.body.Some? then [q.body.value] else [], q.body.None?);
      if q.body.Some? {
        var b := q.body.value;
        assert [b][1..] == [] && b + [] == b;
        assert Concat([b]) == b;
      }
    }
  }

  // ----- What one request keeps

  /** The repository that a request addresses, when it gets past the path checks. */
  function KeyOf(q: Call): Option<string> {
    match Rewrite(q.path)
    case Rewritten(prefix, _) => Some(prefix)
    case _ => None
  }

  /** Prefixes are never "/", so the root repository shares its counter row with no other. */
  lemma PrefixIsNotSlash(q: Call)
    ensures KeyOf(q) != Some("/")
  {
    if KeyOf(q).Some? {
      var prefix := KeyOf(q).value;
      RewriteSplitsPath(q.path);
      var segs := Segments(prefix);
      var all := Segments(q.path);
      assert all[..|segs|] == segs;
      assert Clean(segs);
      CleanJoinEnds(segs);
    }
  }

  /** Repository k as it was. */
  ghost predicate SameRepo(m: Mem, m': Mem, k: string) {
    (k in m.repos <==> k in m'.repos) && (k in m.repos ==> m.repos[k] == m'.repos[k])
  }

  /** A request touches no repository but the one it addresses. */
  lemma RequestIsIsolated(config: Config, mem: Mem, q: Call, k: string)
    requires KeyOf(q) != Some(k)
    ensures SameRepo(mem, Handle(config, mem, q).mem, k)
  {
    hide Rewrite, RouteOf, Handled, Effective, ClassifyOperation, MarkedAppendOnly;
    if KeyOf(q).Some? {
      var Rewritten(key, path) := Rewrite(q.path);
      HandledIsIsolated(config, mem, key, RouteOf(q.verb, path),
                        MarkedAppendOnly(config, q, key, ClassifyOperation(q.verb, path)), q, k);
    }
  }

  lemma HandledIsIsolated(config: Config, mem: Mem, key: string, route: Route, marked: bool, q: Call, k: string)
    requires k != key
    ensures SameRepo(mem, Handled(config, mem, key, route, marked, q).mem, k)
  {
    hide RepoSize, ValidTarget, StatusOf;
  }

  /** A request that is not answered with 200 changes nothing, and neither does a GET or HEAD. */
  lemma FailureChangesNothing(config: Config, mem: Mem, q: Call)
    ensures Handle(config, mem, q).status != 200 || q.verb == GET || q.verb == HEAD ==>
        Handle(config, mem, q).mem == mem
  {
    hide Rewrite, RouteOf, Handled, Effective, ClassifyOperation, MarkedAppendOnly;
    if KeyOf(q).Some? {
      var Rewritten(key, path) := Rewrite(q.path);
      ReadRoutes(q.verb, path);
      HandledFailure(config, mem, key, RouteOf(q.verb, path),
                     MarkedAppendOnly(config, q, key, ClassifyOperation(q.verb, path)), q);
    }
  }

  predicate ReadRoute(route: Route) {
    route.StatConfig? || route.GetConfig? || route.ListBlobs? || route.StatBlob? || route.GetBlob? || route.NoRoute?
  }

  lemma ReadRoutes(verb: Verb, path: string)
    ensures verb == GET || verb == HEAD ==> ReadRoute(RouteOf(verb, path))
  {
  }

  lemma HandledFailure(config: Config, mem: Mem, key: string, route: Route, marked: bool, q: Call)
    ensures Handled(config, mem, key, route, marked, q).status != 200 || ReadRoute(route) ==>
      Handled(config, mem, key, route, marked, q).mem == mem
  {
    hide RepoSize, ValidTarget, WithBlob, WithoutBlob;
  }

  /** Without at least append-only permission a request changes nothing. */
  lemma ReadersChangeNothing(config: Config, mem: Mem, q: Call)
    requires KeyOf(q).Some? && PermissionOf(config, q, KeyOf(q).value).Rank() <= ReadOnly.Rank()
    ensures Handle(config, mem, q).mem == mem
  {
    hide Rewrite, RouteOf, Handled, Effective;
    FailureChangesNothing(config, mem, q);
  }

  /** A permitted GET with a closed range is answered as RFC 7233 asks, end to end, exactly when the
      range does not end at 2^63 - 1 after starting inside the blob at 1 or later. */
  lemma DownloadServesRange(config: Config, mem: Mem, q: Call, r: string, t: string, name: string,
                            first: string, last: string, start: nat, end: nat)
    requires KeyOf(q) == Some(r) && RouteOf(q.verb, Rewrite(q.path).path) == GetBlob(t, name)
    requires PermissionOf(config, q, r) != Deny && ValidTarget(t, name)
    requires BlobOf(mem, r, t, name).Some? && |BlobOf(mem, r, t, name).value| <= BlobRange.MAX64
    requires q.range == BlobRange.Header(first, last) && start <= end
    requires BlobRange.Numeral(first, start) && BlobRange.Numeral(last, end)
    ensures var data := BlobOf(mem, r, t, name).value; var reply := BlobRange.Expected(data, start, end);
      Handle(config, mem, q) == Answer(mem, StatusOfDownload(reply), Download(reply)) <==>
      !(end == BlobRange.MAX64 && 1 <= start < |data|)
  {
    hide Rewrite, RouteOf, PermissionOf, ValidTarget, BlobOf, BlobRange.Serve, BlobRange.ParseRange, BlobRange.Header;
    DownloadsAreGets(q.verb, Rewrite(q.path).path);
    BlobRange.ClosedRangeServed(BlobRange.Memory, BlobOf(mem, r, t, name).value, first, last, start, end);
  }

  lemma DownloadsAreGets(verb: Verb, path: string)
    ensures RouteOf(verb, path).GetBlob? ==> ClassifyOperation(verb, path) == OpRead
  {
  }

  lemma RequestKeeps(config: Config, mem: Mem, q: Call)
    requires WellFormed(mem)
    ensures WellFormed(Handle(config, mem, q).mem)
  {
    hide Rewrite, RouteOf, Handled, Effective, ClassifyOperation, MarkedAppendOnly, WellFormed;
    if KeyOf(q).Some? {
      var Rewritten(key, path) := Rewrite(q.path);
      HandledKeeps(config, mem, key, RouteOf(q.verb, path),
                   MarkedAppendOnly(config, q, key, ClassifyOperation(q.verb, path)), q);
    }
  }

  lemma HandledKeeps(config: Config, mem: Mem, key: string, route: Route, marked: bool, q: Call)
    requires WellFormed(mem)
    ensures WellFormed(Handled(config, mem, key, route, marked, q).mem)
  {
    hide WellFormed, ValidTarget, WithBlob, WithoutBlob;
    match route
    case CreateRepo => CreateRepoKeeps(mem, key);
    case DeleteRepo => DeleteRepoKeeps(mem, key);
    case SaveConfig => SaveConfigKeeps(mem, key, q.body);
    case SaveBlob(t, name) => SaveBlobKeeps(mem, key, t, name, q.body);
    case DeleteBlob(t, name) => DeleteBlobKeeps(mem, key, t, name);
    case _ =>
  }

  // ----- Append-only

  /** The request may at most append to repository r: it addresses another one, or the server is
      append-only, or the access rules give its identities at most append-only there. */
  predicate AtMostAppends(config: Config, q: Call, r: string) {
    KeyOf(q) == Some(r) ==> config.appendOnly || PermissionOf(config, q, r).Rank() <= AppendOnly.Rank()
  }

  /** Repository r is still there, with its config if it had one, and with every blob name that is
      not a lock. */
  ghost predicate Preserved(m: Mem, m': Mem, r: string) {
    r in m.repos ==>
      && r in m'.repos
      && (m.repos[r].config.Some? ==> m'.repos[r].config == m.repos[r].config)
      && (forall t, name :: t != "locks" && BlobOf(m, r, t, name).Some? ==> BlobOf(m', r, t, name).Some?)
  }

  lemma {:induction false} FirstSlashAfter(t: string, rest: string)
    requires '/' !in t
    ensures FirstSlash(t + "/" + rest) == |t|
  {
    if t != "" {
      assert (t + "/" + rest)[1..] == t[1..] + "/" + rest;
      FirstSlashAfter(t[1..], rest);
    }
  }

  /** A DELETE below another type directory is classified as a deletion: "/locks/" is recognized
      exactly when the type is "locks". */
  lemma DeleteIsClassified(path: string)
    requires RouteOf(DELETE, path).DeleteBlob?
    ensures ClassifyOperation(DELETE, path) == if RouteOf(DELETE, path).t == "locks" then OpWrite else OpDelete
  {
    var rest := path[1..];
    var i := FirstSlash(rest);
    var t, name := rest[..i], rest[i + 1..];
    assert path == "/" + t + "/" + name;
    LocksPrefix(path, t, name);
  }

  lemma LocksPrefix(path: string, t: string, name: string)
    requires path == "/" + t + "/" + name && '/' !in t
    ensures HasPrefix(path, "/locks/") <==> t == "locks"
    ensures path != "/locks"
  {
    assert path[1..] == t + "/" + name;
    FirstSlashAfter(t, name);
    if HasPrefix(path, "/locks/") {
      var after := path[7..];
      assert path == "/" + ("locks" + "/" + after);
      assert path[1..] == "locks" + "/" + after;
      FirstSlashAfter("locks", after);
      assert path[1..][..|t|] == t && path[1..][..5] == "locks";
    }
    assert path[|t| + 1] == '/';
  }

  /** The routes that take something away are deletions for the access check. */
  lemma RoutesAreClassified(verb: Verb, path: string)
    ensures var op := ClassifyOperation(verb, path);
      match RouteOf(verb, path)
      case DeleteRepo => op == OpDelete
      case DeleteBlob(t, _) => op == (if t == "locks" then OpWrite else OpDelete)
      case SaveConfig => op == OpWrite
      case _ => true
  {
    if RouteOf(verb, path).DeleteBlob? {
      DeleteIsClassified(path);
    }
  }

  /** What the access check and the append-only switch together let through. */
  predicate AppendingRoute(config: Config, route: Route, marked: bool) {
    match route
    case DeleteRepo => config.appendOnly
    case DeleteBlob(t, _) => config.appendOnly || t == "locks"
    case SaveConfig => config.appendOnly || marked
    case _ => true
  }

  /** A request that may at most append is refused, or reaches a handler as an appending one. */
  lemma AppendersAreGuarded(config: Config, mem: Mem, q: Call, r: string) returns (route: Route, marked: bool)
    requires AtMostAppends(config, q, r) && KeyOf(q) == Some(r)
    ensures Handle(config, mem, q) == Plain(mem, 403)
         || (Handle(config, mem, q) == Handled(config, mem, r, route, marked, q)
             && AppendingRoute(config, route, marked))
    ensures route == RouteOf(q.verb, Rewrite(q.path).path)
  {
    hide Rewrite, RouteOf, Handled, Effective, ClassifyOperation;
    var path := Rewrite(q.path).path;
    route := RouteOf(q.verb, path);
    marked := MarkedAppendOnly(config, q, r, ClassifyOperation(q.verb, path));
    RoutesAreClassified(q.verb, path);
  }

  lemma HandledPreserves(config: Config, mem: Mem, key: string, route: Route, marked: bool, q: Call)
    requires AppendingRoute(config, route, marked)
    ensures Preserved(mem, Handled(config, mem, key, route, marked, q).mem, key)
  {
    hide RepoSize, ValidTarget, StatusOf;
  }

  lemma AppendOnlyStep(config: Config, mem: Mem, q: Call, r: string)
    requires AtMostAppends(config, q, r)
    ensures Preserved(mem, Handle(config, mem, q).mem, r)
  {
    hide Handle, Handled, AtMostAppends, Rewrite, RouteOf;
    if KeyOf(q) != Some(r) {
      RequestIsIsolated(config, mem, q, r);
    } else {
      var route, marked := AppendersAreGuarded(config, mem, q, r);
      if Handle(config, mem, q) != Plain(mem, 403) {
        HandledPreserves(config, mem, r, route, marked, q);
      }
    }
  }

  ghost function AfterAll(config: Config, mem: Mem, calls: seq<Call>): Mem
    decreases calls
  {
    if calls == [] then mem else AfterAll(config, Handle(config, mem, calls[0]).mem, calls[1..])
  }

  /** Over every run the quota counter is the number of stored bytes and stays within the quota. */
  lemma {:induction false} QuotaHolds(config: Config, mem: Mem, calls: seq<Call>)
    requires WellFormed(mem)
    ensures var m := AfterAll(config, mem, calls);
      m.used == Total(m.repos) && (m.maxBytes >= 0 ==> 0 <= m.used <= m.maxBytes)
    decreases calls
  {
    if calls != [] {
      hide Handle;
      RequestKeeps(config, mem, calls[0]);
      QuotaHolds(config, Handle(config, mem, calls[0]).mem, calls[1..]);
    }
  }

  /** Over every run in which repository r is only appended to, while other repositories are treated
      in any way: r is never removed, its config never changes once set, and no name of a blob
      other than a lock disappears. */
  lemma {:induction false} AppendOnlyRun(config: Config, mem: Mem, calls: seq<Call>, r: string)
    requires forall i :: 0 <= i < |calls| ==> AtMostAppends(config, calls[i], r)
    ensures Preserved(mem, AfterAll(config, mem, calls), r)
    decreases calls
  {
    if calls != [] {
      hide Handle, AtMostAppends;
      AppendOnlyStep(config, mem, calls[0], r);
      AppendOnlyRun(config, Handle(config, mem, calls[0]).mem, calls[1..], r);
    }
  }

  /** The same holds between any two moments of such a run. */
  lemma {:induction false} AppendOnlyRunBetween(config: Config, mem: Mem, calls: seq<Call>, r: string, i: nat)
    requires i <= |calls| && forall j :: 0 <= j < |calls| ==> AtMostAppends(config, calls[j], r)
    ensures Preserved(AfterAll(config, mem, calls[..i]), AfterAll(config, mem, calls), r)
    decreases calls
  {
    hide Handle, AtMostAppends, Preserved;
    if i == 0 {
      AppendOnlyRun(config, mem, calls, r);
    } else {
      assert calls[..i][1..] == calls[1..][..i - 1];
      AppendOnlyRunBetween(config, Handle(config, mem, calls[0]).mem, calls[1..], r, i - 1);
    }
  }

  /** An upload that gets past the access check, the checks of the handler and the quota. */
  predicate Accepts(config: Config, mem: Mem, q: Call, r: string, t: string, name: string) {
    && Allows(PermissionOf(config, q, r), OpWrite)
    && ValidTarget(t, name)
    && q.body.Some?
    && mem.used - SizeOf(BlobOf(mem, r, t, name)) + |q.body.value| <= mem.maxBytes
  }

  /** Appending is not writing once: on this backend a permitted upload replaces the content of a
      blob. An existing blob that is no lock keeps its bytes exactly when the request is not an
      upload under its name, with other bytes, by someone who may write, that fits the quota. */
  lemma AppendOnlyContent(config: Config, mem: Mem, q: Call, r: string, t: string, name: string)
    requires AtMostAppends(config, q, r) && t != "locks" && BlobOf(mem, r, t, name).Some?
    ensures BlobOf(Handle(config, mem, q).mem, r, t, name) == BlobOf(mem, r, t, name) <==>
      !(&& KeyOf(q) == Some(r)
        && RouteOf(q.verb, Rewrite(q.path).path) == SaveBlob(t, name)
        && Accepts(config, mem, q, r, t, name)
        && q.body != BlobOf(mem, r, t, name))
  {
    hide Handle, Handled, AtMostAppends, Rewrite, RouteOf, Accepts;
    if KeyOf(q) != Some(r) {
      RequestIsIsolated(config, mem, q, r);
    } else if RouteOf(q.verb, Rewrite(q.path).path) == SaveBlob(t, name) {
      UploadReplaces(config, mem, q, r, t, name);
    } else {
      var route, marked := AppendersAreGuarded(config, mem, q, r);
      if Handle(config, mem, q) != Plain(mem, 403) {
        OtherRoutesKeep(config, mem, r, route, marked, q, t, name);
      }
    }
  }

  lemma UploadReplaces(config: Config, mem: Mem, q: Call, r: string, t: string, name: string)
    requires KeyOf(q) == Some(r) && RouteOf(q.verb, Rewrite(q.path).path) == SaveBlob(t, name)
    requires BlobOf(mem, r, t, name).Some?
    ensures BlobOf(Handle(config, mem, q).mem, r, t, name)
         == if Accepts(config, mem, q, r, t, name) then q.body else BlobOf(mem, r, t, name)
  {
    hide Rewrite, RouteOf, PermissionOf, Handled, ValidTarget, BlobOf, ClassifyOperation, MarkedAppendOnly;
    var path := Rewrite(q.path).path;
    UploadsArePosts(q.verb, path);
    HandledUpload(config, mem, r, MarkedAppendOnly(config, q, r, ClassifyOperation(q.verb, path)), q, t, name);
  }

  lemma HandledUpload(config: Config, mem: Mem, key: string, marked: bool, q: Call, t: string, name: string)
    requires BlobOf(mem, key, t, name).Some?
    ensures BlobOf(Handled(config, mem, key, SaveBlob(t, name), marked, q).mem, key, t, name)
         == if && ValidTarget(t, name) && q.body.Some?
               && mem.used - SizeOf(BlobOf(mem, key, t, name)) + |q.body.value| <= mem.maxBytes
            then q.body else BlobOf(mem, key, t, name)
  {
    hide ValidTarget, StatusOf;
  }

  lemma UploadsArePosts(verb: Verb, path: string)
    ensures RouteOf(verb, path).SaveBlob? ==> ClassifyOperation(verb, path) == OpWrite
  {
  }

  lemma OtherRoutesKeep(config: Config, mem: Mem, key: string, route: Route, marked: bool, q: Call,
                        t: string, name: string)
    requires AppendingRoute(config, route, marked) && t != "locks" && route != SaveBlob(t, name)
    requires BlobOf(mem, key, t, name).Some?
    ensures BlobOf(Handled(config, mem, key, route, marked, q).mem, key, t, name) == BlobOf(mem, key, t, name)
  {
    hide RepoSize, ValidTarget;
  }

  /** It happens: an identity that may only append posts other bytes under the name of a data blob,
      and the blob has them afterwards. */
  lemma AppendOnlyReplaces(config: Config, mem: Mem, q: Call)
    requires config == Config(false, Some(Engine(AppendOnly, [])))
    requires mem == AfterSaveBlob(AfterCreateRepo(Mem(8, 0, map[]), ""), "", "data", "ab", Some([1]))
    requires q == Call(POST, "/data/ab", ["backup-host"], "", false, Some([2]), "")
    ensures WellFormed(mem) && KeyOf(q) == Some("") && PermissionOf(config, q, "") == AppendOnly
    ensures BlobOf(mem, "", "data", "ab") == Some([1])
    ensures BlobOf(Handle(config, mem, q).mem, "", "data", "ab") == Some([2])
  {
    ExampleRewrite();
    ExampleRoute();
    ExamplePermission(config, q);
    ExampleState(mem);
    assert KeyOf(q) == Some("");
    hide *;
    ExampleTarget();
    ExampleAccepted(config, mem, q);
    UploadReplaces(config, mem, q, "", "data", "ab");
  }

  lemma ExampleTarget()
    ensures ValidTarget("data", "ab")
  {
    assert "ab"[0] == 'a' && "ab"[1] == 'b';
  }

  lemma ExampleAccepted(config: Config, mem: Mem, q: Call)
    requires PermissionOf(config, q, "") == AppendOnly && ValidTarget("data", "ab") && q.body == Some([2])
    requires BlobOf(mem, "", "data", "ab") == Some([1]) && mem.used == 1 && mem.maxBytes == 8
    ensures Accepts(config, mem, q, "", "data", "ab")
  {
  }

  lemma ExampleRewrite()
    ensures Rewrite("/data/ab") == Rewritten("", "/data/ab")
  {
    hide Segments, Split, CheckedSegments;
    var p, segs := "/data/ab", ["data", "ab"];
    assert segs[1..] == ["ab"] && Join(["ab"]) == "ab" && Join(segs) == "data/ab";
    assert CleanSegment("data") && CleanSegment("ab");
    SegmentsOfRooted(segs, false);
    assert "/" + Join(segs) + "" == p;
    CheckedIsClean(p);
    assert CheckedSegments(p) == Ok(segs);
    assert segs[..0] == [] && segs[0..] == segs && FirstKnown(segs) == 0;
    assert p[1] == 'd' && p[|p| - 1] == 'b';
    assert Cut(segs, false) == Rewritten("", p);
  }

  lemma ExampleRoute()
    ensures RouteOf(POST, "/data/ab") == SaveBlob("data", "ab")
  {
    var p, rest := "/data/ab", "data/ab";
    hide FirstSlash;
    assert p[1..] == rest && "data" + "/" + "ab" == rest;
    FirstSlashAfter("data", "ab");
    assert rest[..4] == "data" && rest[5..] == "ab";
  }

  lemma ExamplePermission(config: Config, q: Call)
    requires config == Config(false, Some(Engine(AppendOnly, [])))
    ensures PermissionOf(config, q, "") == AppendOnly
  {
    assert Matches([], IdentitiesOf(q), NormalizePath("/" + "")) == [];
  }

  lemma ExampleState(mem: Mem)
    requires mem == AfterSaveBlob(AfterCreateRepo(Mem(8, 0, map[]), ""), "", "data", "ab", Some([1]))
    ensures WellFormed(mem) && BlobOf(mem, "", "data", "ab") == Some([1])
    ensures mem.used == 1 && mem.maxBytes == 8
  {
    var none := Mem(8, 0, map[]);
    assert WellFormed(none);
    CreateRepoKeeps(none, "");
    SaveBlobKeeps(AfterCreateRepo(none, ""), "", "data", "ab", Some([1]));
  }
}
