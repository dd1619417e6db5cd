/**
 What a client of the memory backend sees, by method and path: who is let through, what is answered
 with which status, and what is stored afterwards; and that reads give back what was written.
 */
module ServerAnswers {
  import opened Prelude
  import opened Text
  import opened RepoPrefix
  import opened Acl
  import opened BlobNames
  import opened MapSum
  import opened MemoryBackend
  import opened Server
  import opened Addresses
  import BlobRange

  // ----- Who is let through

  lemma LocksByName(api: seq<string>, slash: bool)
    requires Clean(api)
    ensures var path := ApiPath(api, slash);
      HasPrefix(path, "/locks/") || path == "/locks" <==> api != [] && api[0] == "locks"
  {
    if api != [] {
      var path, t := ApiPath(api, slash), api[0];
      TypeIsClean(api);
      if |api| == 1 && !slash {
        OneSegmentPath(t);
        assert api == [t] && path[1..] == t;
        LocksAlone(path, t);
      } else {
        var name := if |api| == 1 then "" else NameIn(api, slash);
        if |api| == 1 {
          OneSegmentPath(t);
          assert api == [t];
        } else {
          LongPath(api, slash);
        }
        hide *;
        LocksPrefix(path, t, name);
      }
    }
  }

  lemma LocksAlone(path: string, t: string)
    requires path == "/" + t && '/' !in t
    ensures HasPrefix(path, "/locks/") || path == "/locks" <==> t == "locks"
  {
    assert path[1..] == t && "/locks"[1..] == "locks";
    if |t| >= 6 {
      assert t[5] in t && path[6] == t[5];
    }
  }

  function WithoutEngine(config: Config): Config {
    config.(engine := None)
  }

  predicate Reads(verb: Verb) {
    verb == GET || verb == HEAD
  }

  /** Whatever the request: an identity that is denied is refused; one that may read is answered like
      everybody on a server without access rules when it reads, and refused otherwise; one that may
      append is answered like everybody but for deletions of other things than locks and for replacing
      a config; full access lets everything through. */
  lemma AccessDecides(config: Config, mem: Mem, q: Call, repo: seq<string>, api: seq<string>, slash: bool)
    requires Names(q.path, repo, api, slash)
    ensures var answer, open := Handle(config, mem, q), Handle(WithoutEngine(config), mem, q);
      match PermissionOf(config, q, Join(repo))
      case Deny => answer == Plain(mem, 403)
      case ReadOnly => answer == if Reads(q.verb) then open else Plain(mem, 403)
      case AppendOnly =>
        answer == if q.verb == DELETE && (api == [] || api[0] != "locks") then Plain(mem, 403)
                  else if q.verb == POST && api == ["config"] && !slash && ConfigOf(mem, Join(repo)).Some? then
                    Plain(mem, 403)
                  else open
      case FullAccess => answer == open
    ensures PermissionOf(WithoutEngine(config), q, Join(repo)) == FullAccess
  {
    hide Rewrite, Names, RouteOf, Handled, Effective, Clean;
    NamedIsRewritten(q.path, repo, api, slash);
    LocksByName(api, slash);
    var route, key := RouteOf(q.verb, ApiPath(api, slash)), Join(repo);
    ConfigIsSaved(q.verb, api, slash);
    forall marked | route != SaveConfig || ConfigOf(mem, key).None? || !marked
      ensures Handled(config, mem, key, route, marked, q) == Handled(WithoutEngine(config), mem, key, route, false, q)
    {
      MarkMatters(config, mem, key, route, marked, q);
    }
    if route == SaveConfig && ConfigOf(mem, key).Some? {
      MarkedConfigIsRefused(config, mem, key, q);
    }
  }

  /** The permission of a request is the documented cascade of the rules as written, for the segments of
      the repository that the path names, and for the identities of the request or else its address. */
  lemma PermissionIsTheCascade(config: Config, q: Call, repo: seq<string>,
                               defaultPerm: Permission, written: seq<Rule>, d: nat)
    requires Clean(repo) && config.engine == Some(Built(defaultPerm, written))
    requires forall depth: nat, p :: Applies(written, IdentitiesOf(q), repo, depth, p) ==> depth <= d
    ensures IdentitiesOf(q) == (if |q.identities| > 0 then q.identities else [q.ip])
    ensures var result := PermissionOf(config, q, Join(repo));
            var kept := Kept(Matches(Built(defaultPerm, written).rules, IdentitiesOf(q), RequestPath(repo)));
      && ((forall depth: nat, p :: !Applies(written, IdentitiesOf(q), repo, depth, p)) ==> result == defaultPerm)
      && ((exists p :: Applies(written, IdentitiesOf(q), repo, d, p)) ==>
            (!LoneLeadingDeny(kept) <==>
               if Applies(written, IdentitiesOf(q), repo, d, Deny) then result == Deny
               else Applies(written, IdentitiesOf(q), repo, d, result)
                    && forall p :: Applies(written, IdentitiesOf(q), repo, d, p) ==> p.Rank() <= result.Rank()))
  {
    hide Applies, LoneLeadingDeny, Kept, Matches, Effective;
    ResolveIsTheCascade(defaultPerm, written, IdentitiesOf(q), repo, d);
  }

  lemma MarkMatters(config: Config, mem: Mem, key: string, route: Route, marked: bool, q: Call)
    requires route != SaveConfig || ConfigOf(mem, key).None? || !marked
    ensures Handled(config, mem, key, route, marked, q) == Handled(WithoutEngine(config), mem, key, route, false, q)
  {
    hide AfterCreateRepo, AfterDeleteRepo, AfterSaveConfig, AfterSaveBlob, AfterDeleteBlob;
    hide BlobOf, ConfigOf, BlobRange.Serve, ValidTarget, SaveBlobError, SaveConfigError;
  }

  lemma MarkedConfigIsRefused(config: Config, mem: Mem, key: string, q: Call)
    requires ConfigOf(mem, key).Some?
    ensures Handled(config, mem, key, SaveConfig, true, q) == Plain(mem, 403)
  {
  }

  lemma ConfigIsSaved(verb: Verb, api: seq<string>, slash: bool)
    requires Clean(api)
    ensures RouteOf(verb, ApiPath(api, slash)) == SaveConfig <==> verb == POST && api == ["config"] && !slash
  {
    hide RouteOf, ApiPath, CleanSegment;
    if api == [] {
      RootRoutes(verb, slash);
    } else if |api| >= 2 {
      BlobRoutes(verb, api, slash);
    } else {
      assert api == [api[0]];
      ConfigRoutes(verb);
      ListRoutes(verb, api[0]);
    }
  }

  // ----- Past the access check

  lemma ReachedRead(config: Config, mem: Mem, q: Call, repo: seq<string>, api: seq<string>, slash: bool, route: Route)
    requires Names(q.path, repo, api, slash) && route == RouteOf(q.verb, ApiPath(api, slash))
    requires (q.verb == GET || q.verb == HEAD) && PermissionOf(config, q, Join(repo)) != Deny
    ensures Handle(config, mem, q) == Handled(config, mem, Join(repo), route, false, q)
  {
    hide Rewrite, RouteOf, Names, PermissionOf, Handled, ApiPath, Clean;
    NamedIsRewritten(q.path, repo, api, slash);
  }

  lemma ReachedPost(config: Config, mem: Mem, q: Call, repo: seq<string>, api: seq<string>, slash: bool, route: Route)
    requires Names(q.path, repo, api, slash) && route == RouteOf(q.verb, ApiPath(api, slash)) && q.verb == POST
    requires PermissionOf(config, q, Join(repo)) == AppendOnly || PermissionOf(config, q, Join(repo)) == FullAccess
    ensures Handle(config, mem, q)
         == Handled(config, mem, Join(repo), route, PermissionOf(config, q, Join(repo)) == AppendOnly, q)
  {
    EngineAsked(config, q, Join(repo));
    hide Rewrite, RouteOf, Names, PermissionOf, Handled, ApiPath, Clean;
    NamedIsRewritten(q.path, repo, api, slash);
  }

  lemma EngineAsked(config: Config, q: Call, r: string)
    ensures config.engine.None? ==> PermissionOf(config, q, r) == FullAccess
  {
  }

  lemma ReachedFully(config: Config, mem: Mem, q: Call, repo: seq<string>, api: seq<string>, slash: bool, route: Route)
    requires Names(q.path, repo, api, slash) && route == RouteOf(q.verb, ApiPath(api, slash))
    requires PermissionOf(config, q, Join(repo)) == FullAccess
    ensures Handle(config, mem, q) == Handled(config, mem, Join(repo), route, false, q)
  {
    hide Rewrite, RouteOf, Names, PermissionOf, Handled, ApiPath, Clean;
    NamedIsRewritten(q.path, repo, api, slash);
  }

  lemma LockOperation(api: seq<string>, slash: bool)
    requires Clean(api) && api != [] && api[0] == "locks"
    ensures ClassifyOperation(DELETE, ApiPath(api, slash)) == OpWrite
  {
    LocksByName(api, slash);
    hide ApiPath, Clean;
  }

  /** Deleting a lock is a write. */
  lemma ReachedLock(config: Config, mem: Mem, q: Call, repo: seq<string>, api: seq<string>, slash: bool, route: Route)
    requires Names(q.path, repo, api, slash) && route == RouteOf(q.verb, ApiPath(api, slash)) && q.verb == DELETE
    requires api != [] && api[0] == "locks" && PermissionOf(config, q, Join(repo)) == AppendOnly
    ensures Handle(config, mem, q) == Handled(config, mem, Join(repo), route, true, q)
  {
    hide Rewrite, RouteOf, Names, PermissionOf, Handled, ApiPath, Clean, ClassifyOperation;
    EngineAsked(config, q, Join(repo));
    NamedIsRewritten(q.path, repo, api, slash);
    LockOperation(api, slash);
  }

  // ----- Blobs

  /** Nothing but blob (t, name) of repository r differs. */
  ghost predicate OnlyBlobDiffers(m: Mem, m': Mem, r: string, t: string, name: string) {
    && m'.repos.Keys == m.repos.Keys && m'.maxBytes == m.maxBytes
    && (forall k :: ConfigOf(m', k) == ConfigOf(m, k))
    && (forall k, u, other :: (k, u, other) != (r, t, name) ==> BlobOf(m', k, u, other) == BlobOf(m, k, u, other))
  }

  /** A GET that asks for no range is answered with exactly the stored bytes, or 404. */
  lemma Download(config: Config, mem: Mem, q: Call, repo: seq<string>, t: string, name: string)
    requires Names(q.path, repo, [t, name], false) && ValidTarget(t, name) && q.verb == GET
    requires PermissionOf(config, q, Join(repo)) != Deny && BlobRange.ParseRange(q.range).None?
    ensures Handle(config, mem, q) ==
            match BlobOf(mem, Join(repo), t, name)
            case Some(data) => Answer(mem, 200, Server.Download(BlobRange.Full(data)))
            case None => Answer(mem, 404, Server.Download(BlobRange.Reply.NotFound))
  {
    hide *;
    BlobRoute(q, repo, t, name);
    ReachedRead(config, mem, q, repo, [t, name], false, GetBlob(t, name));
    DownloadHandled(config, mem, Join(repo), q, t, name);
  }

  /** A GET with a closed range, by the path. */
  lemma RangeDownload(config: Config, mem: Mem, q: Call, repo: seq<string>, t: string, name: string,
                      first: string, last: string, start: nat, end: nat)
    requires Names(q.path, repo, [t, name], false) && ValidTarget(t, name) && q.verb == GET
    requires PermissionOf(config, q, Join(repo)) != Deny
    requires BlobOf(mem, Join(repo), t, name).Some?
    requires |BlobOf(mem, Join(repo), t, name).value| <= BlobRange.MAX64
    requires q.range == BlobRange.Header(first, last) && start <= end
    requires BlobRange.Numeral(first, start) && BlobRange.Numeral(last, end)
    ensures var data := BlobOf(mem, Join(repo), t, name).value; var reply := BlobRange.Expected(data, start, end);
      Handle(config, mem, q) == Answer(mem, if start < |data| then 206 else 416, Server.Download(reply)) <==>
      !(end == BlobRange.MAX64 && 1 <= start < |data|)
  {
    hide *;
    BlobRoute(q, repo, t, name);
    ReachedRead(config, mem, q, repo, [t, name], false, GetBlob(t, name));
    RangeHandled(config, mem, Join(repo), q, t, name, first, last, start, end);
  }

  lemma DownloadHandled(config: Config, mem: Mem, r: string, q: Call, t: string, name: string)
    requires ValidTarget(t, name) && BlobRange.ParseRange(q.range).None?
    ensures Handled(config, mem, r, GetBlob(t, name), false, q) ==
            match BlobOf(mem, r, t, name)
            case Some(data) => Answer(mem, 200, Server.Download(BlobRange.Full(data)))
            case None => Answer(mem, 404, Server.Download(BlobRange.Reply.NotFound))
  {
    DownloadIsServed(config, mem, r, q, t, name);
    hide ValidTarget, BlobOf, BlobRange.ParseRange, BlobRange.Serve, Handled;
    if BlobOf(mem, r, t, name).Some? {
      BlobRange.WholeServed(BlobRange.Memory, BlobOf(mem, r, t, name).value);
    } else {
      BlobRange.WholeServed(BlobRange.Memory, []);
    }
  }

  lemma DownloadIsServed(config: Config, mem: Mem, r: string, q: Call, t: string, name: string)
    requires ValidTarget(t, name)
    ensures var range := BlobRange.ParseRange(q.range);
      var reply := BlobRange.Serve(BlobRange.Memory, BlobOf(mem, r, t, name), range);
      Handled(config, mem, r, GetBlob(t, name), false, q)
        == Answer(mem, StatusOfDownload(reply), Server.Download(reply))
  {
    hide ValidTarget, BlobOf, BlobRange.ParseRange, BlobRange.Serve, StatusOfDownload;
  }

  lemma RangeHandled(config: Config, mem: Mem, r: string, q: Call, t: string, name: string,
                     first: string, last: string, start: nat, end: nat)
    requires ValidTarget(t, name) && BlobOf(mem, r, t, name).Some?
    requires |BlobOf(mem, r, t, name).value| <= BlobRange.MAX64
    requires q.range == BlobRange.Header(first, last) && start <= end
    requires BlobRange.Numeral(first, start) && BlobRange.Numeral(last, end)
    ensures var data := BlobOf(mem, r, t, name).value; var reply := BlobRange.Expected(data, start, end);
      Handled(config, mem, r, GetBlob(t, name), false, q)
        == Answer(mem, if start < |data| then 206 else 416, Server.Download(reply)) <==>
      !(end == BlobRange.MAX64 && 1 <= start < |data|)
  {
    hide *;
    var data := BlobOf(mem, r, t, name).value;
    DownloadIsServed(config, mem, r, q, t, name);
    BlobRange.ClosedRangeServed(BlobRange.Memory, data, first, last, start, end);
    RangeStatus(data, start, end);
  }

  lemma RangeStatus(data: Bytes, start: nat, end: int)
    requires start <= end
    ensures StatusOfDownload(BlobRange.Expected(data, start, end)) == if start < |data| then 206 else 416
  {
  }

  /** A HEAD is answered with the length. */
  lemma Probe(config: Config, mem: Mem, q: Call, repo: seq<string>, t: string, name: string)
    requires Names(q.path, repo, [t, name], false) && ValidTarget(t, name) && q.verb == HEAD
    requires PermissionOf(config, q, Join(repo)) != Deny
    ensures Handle(config, mem, q) ==
            match BlobOf(mem, Join(repo), t, name)
            case Some(data) => Answer(mem, 200, Length(|data|))
            case None => Plain(mem, 404)
  {
    hide *;
    BlobRoute(q, repo, t, name);
    ReachedRead(config, mem, q, repo, [t, name], false, StatBlob(t, name));
    ProbeHandled(config, mem, Join(repo), q, t, name);
  }

  lemma ProbeHandled(config: Config, mem: Mem, r: string, q: Call, t: string, name: string)
    requires ValidTarget(t, name)
    ensures Handled(config, mem, r, StatBlob(t, name), false, q) ==
            match BlobOf(mem, r, t, name)
            case Some(data) => Answer(mem, 200, Length(|data|))
            case None => Plain(mem, 404)
  {
    hide ValidTarget, BlobOf;
  }

  /** A POST stores the body under the name, whatever was there, when the repository is there and the
      quota allows; otherwise nothing changes. */
  lemma Upload(config: Config, mem: Mem, q: Call, repo: seq<string>, t: string, name: string)
    requires Names(q.path, repo, [t, name], false) && ValidTarget(t, name) && q.verb == POST && WellFormed(mem)
    requires PermissionOf(config, q, Join(repo)) == AppendOnly || PermissionOf(config, q, Join(repo)) == FullAccess
    ensures var r, answer := Join(repo), Handle(config, mem, q);
      if q.body.None? || r !in mem.repos then answer == Plain(mem, 500)
      else if mem.used - SizeOf(BlobOf(mem, r, t, name)) + |q.body.value| > mem.maxBytes then answer == Plain(mem, 507)
      else
        && answer.status == 200 && answer.content == Empty
        && BlobOf(answer.mem, r, t, name) == q.body
        && OnlyBlobDiffers(mem, answer.mem, r, t, name)
  {
    hide *;
    BlobRoute(q, repo, t, name);
    ReachedPost(config, mem, q, repo, [t, name], false, SaveBlob(t, name));
    UploadHandled(config, mem, Join(repo), PermissionOf(config, q, Join(repo)) == AppendOnly, q, t, name);
  }

  lemma UploadError(mem: Mem, r: string, t: string, name: string, body: Option<Bytes>)
    requires WellFormed(mem) && t in BLOB_TYPES
    ensures StatusOf(SaveBlobError(mem, r, t, name, body)) ==
            if body.None? || r !in mem.repos then 500
            else if mem.used - SizeOf(BlobOf(mem, r, t, name)) + |body.value| > mem.maxBytes then 507
            else 200
    ensures StatusOf(SaveBlobError(mem, r, t, name, body)) == 200 <==> SaveBlobError(mem, r, t, name, body).None?
  {
    hide BlobOf;
  }

  lemma UploadHandled(config: Config, mem: Mem, r: string, marked: bool, q: Call, t: string, name: string)
    requires ValidTarget(t, name) && WellFormed(mem)
    ensures var answer := Handled(config, mem, r, SaveBlob(t, name), marked, q);
      if q.body.None? || r !in mem.repos then answer == Plain(mem, 500)
      else if mem.used - SizeOf(BlobOf(mem, r, t, name)) + |q.body.value| > mem.maxBytes then answer == Plain(mem, 507)
      else
        && answer.status == 200 && answer.content == Empty
        && BlobOf(answer.mem, r, t, name) == q.body
        && OnlyBlobDiffers(mem, answer.mem, r, t, name)
  {
    SaveChanges(mem, r, t, name, q.body);
    UploadError(mem, r, t, name, q.body);
    hide BlobOf, AfterSaveBlob, OnlyBlobDiffers, StatusOf, SaveBlobError, WellFormed;
  }

  lemma SaveChanges(mem: Mem, r: string, t: string, name: string, body: Option<Bytes>)
    ensures var mem' := AfterSaveBlob(mem, r, t, name, body);
      if SaveBlobError(mem, r, t, name, body).Some? then mem' == mem
      else BlobOf(mem', r, t, name) == body && OnlyBlobDiffers(mem, mem', r, t, name)
  {
    hide SaveBlobError;
    if SaveBlobError(mem, r, t, name, body).None? {
      SavableBlob(mem, r, t, name, body);
    }
  }

  lemma SavableBlob(mem: Mem, r: string, t: string, name: string, body: Option<Bytes>)
    requires SaveBlobError(mem, r, t, name, body).None?
    ensures body.Some? && r in mem.repos && t in mem.repos[r].blobs
  {
  }

  lemma RemovalChanges(mem: Mem, r: string, t: string, name: string)
    requires BlobOf(mem, r, t, name).Some?
    ensures var mem' := AfterDeleteBlob(mem, r, t, name);
      BlobOf(mem', r, t, name) == None && OnlyBlobDiffers(mem, mem', r, t, name)
  {
  }

  /** A DELETE removes the blob, or answers 404; where only appending is allowed, only locks go. */
  lemma Removal(config: Config, mem: Mem, q: Call, repo: seq<string>, t: string, name: string)
    requires Names(q.path, repo, [t, name], false) && ValidTarget(t, name) && q.verb == DELETE
    requires PermissionOf(config, q, Join(repo)) == FullAccess
          || (t == "locks" && PermissionOf(config, q, Join(repo)) == AppendOnly)
    ensures var r, answer := Join(repo), Handle(config, mem, q);
      if config.appendOnly && t != "locks" then answer == Plain(mem, 403)
      else if BlobOf(mem, r, t, name).None? then answer == Plain(mem, 404)
      else
        && answer.status == 200 && answer.content == Empty
        && BlobOf(answer.mem, r, t, name) == None
        && OnlyBlobDiffers(mem, answer.mem, r, t, name)
  {
    hide *;
    BlobRoute(q, repo, t, name);
    if PermissionOf(config, q, Join(repo)) == FullAccess {
      ReachedFully(config, mem, q, repo, [t, name], false, DeleteBlob(t, name));
      RemovalHandled(config, mem, Join(repo), false, q, t, name);
    } else {
      ReachedLock(config, mem, q, repo, [t, name], false, DeleteBlob(t, name));
      RemovalHandled(config, mem, Join(repo), true, q, t, name);
    }
  }

  lemma RemovalHandled(config: Config, mem: Mem, r: string, marked: bool, q: Call, t: string, name: string)
    requires ValidTarget(t, name)
    ensures var answer := Handled(config, mem, r, DeleteBlob(t, name), marked, q);
      if config.appendOnly && t != "locks" then answer == Plain(mem, 403)
      else if BlobOf(mem, r, t, name).None? then answer == Plain(mem, 404)
      else
        && answer.status == 200 && answer.content == Empty
        && BlobOf(answer.mem, r, t, name) == None
        && OnlyBlobDiffers(mem, answer.mem, r, t, name)
  {
    if BlobOf(mem, r, t, name).Some? {
      RemovalChanges(mem, r, t, name);
    }
    hide ValidTarget, BlobOf, AfterDeleteBlob, OnlyBlobDiffers;
  }

  /** A GET of "/type/" lists every blob of the type once, with its length. */
  lemma ListDownload(config: Config, mem: Mem, q: Call, repo: seq<string>, t: string)
    requires Names(q.path, repo, [t], true) && t in BLOB_TYPES && q.verb == GET
    requires PermissionOf(config, q, Join(repo)) != Deny
    ensures var answer := Handle(config, mem, q);
      && answer.mem == mem && answer.status == 200 && answer.content.Listing?
      && (forall b: BlobInfo :: answer.content.entries[b] ==
            match BlobOf(mem, Join(repo), t, b.name)
            case None => 0
            case Some(data) => if |data| == b.size then 1 else 0)
  {
    hide *;
    ListRoute(q, repo, t);
    ReachedRead(config, mem, q, repo, [t], true, ListBlobs(t));
    ListHandled(config, mem, Join(repo), q, t);
  }

  lemma ListHandled(config: Config, mem: Mem, r: string, q: Call, t: string)
    requires t in BLOB_TYPES
    ensures var answer := Handled(config, mem, r, ListBlobs(t), false, q);
      && answer.mem == mem && answer.status == 200 && answer.content.Listing?
      && (forall b: BlobInfo :: answer.content.entries[b] ==
            match BlobOf(mem, r, t, b.name)
            case None => 0
            case Some(data) => if |data| == b.size then 1 else 0)
  {
    hide Values, BucketInfos;
    var bucket := BucketOf(mem, r, t);
    forall b: BlobInfo
      ensures Values(BucketInfos(bucket))[b] == if b.name in bucket && |bucket[b.name]| == b.size then 1 else 0
    {
      InfosOnce(bucket, b);
    }
  }

  // ----- Config

  /** GET and HEAD of "/config" answer the stored config and its length. */
  lemma ConfigDownload(config: Config, mem: Mem, q: Call, repo: seq<string>)
    requires Names(q.path, repo, ["config"], false) && PermissionOf(config, q, Join(repo)) != Deny
    ensures var stored, answer := ConfigOf(mem, Join(repo)), Handle(config, mem, q);
      && (q.verb == GET ==>
            answer == if stored.Some? then Answer(mem, 200, Whole(stored.value)) else Plain(mem, 404))
      && (q.verb == HEAD ==>
            answer == if stored.Some? then Answer(mem, 200, Length(|stored.value|)) else Plain(mem, 404))
  {
    hide *;
    ConfigRoutes(q.verb);
    if q.verb == GET {
      ReachedRead(config, mem, q, repo, ["config"], false, GetConfig);
    } else if q.verb == HEAD {
      ReachedRead(config, mem, q, repo, ["config"], false, StatConfig);
    }
    ConfigHandled(config, mem, Join(repo), q);
  }

  lemma ConfigHandled(config: Config, mem: Mem, r: string, q: Call)
    ensures var stored := ConfigOf(mem, r);
      && Handled(config, mem, r, GetConfig, false, q)
         == (if stored.Some? then Answer(mem, 200, Whole(stored.value)) else Plain(mem, 404))
      && Handled(config, mem, r, StatConfig, false, q)
         == (if stored.Some? then Answer(mem, 200, Length(|stored.value|)) else Plain(mem, 404))
  {
    hide ConfigOf;
  }

  /** Nothing but the config of repository r differs. */
  ghost predicate OnlyConfigDiffers(m: Mem, m': Mem, r: string) {
    && m'.repos.Keys == m.repos.Keys && m'.maxBytes == m.maxBytes
    && (forall k :: k != r ==> ConfigOf(m', k) == ConfigOf(m, k))
    && (forall k, t, name :: BlobOf(m', k, t, name) == BlobOf(m, k, t, name))
  }

  /** POST of "/config" stores it, unless only appending is allowed and there is one, there is no such
      repository, the upload fails, or the quota does not allow it; then nothing changes. */
  lemma ConfigUpload(config: Config, mem: Mem, q: Call, repo: seq<string>)
    requires Names(q.path, repo, ["config"], false) && q.verb == POST
    requires PermissionOf(config, q, Join(repo)) == AppendOnly || PermissionOf(config, q, Join(repo)) == FullAccess
    ensures var r, answer := Join(repo), Handle(config, mem, q);
      var guarded := config.appendOnly || PermissionOf(config, q, r) == AppendOnly;
      if guarded && ConfigOf(mem, r).Some? then answer == Plain(mem, 403)
      else if q.body.None? || r !in mem.repos then answer == Plain(mem, 500)
      else if mem.used - SizeOf(ConfigOf(mem, r)) + |q.body.value| > mem.maxBytes then answer == Plain(mem, 507)
      else
        && answer.status == 200 && answer.content == Empty
        && ConfigOf(answer.mem, r) == q.body
        && OnlyConfigDiffers(mem, answer.mem, r)
  {
    hide *;
    ConfigRoutes(q.verb);
    ReachedPost(config, mem, q, repo, ["config"], false, SaveConfig);
    ConfigUploadHandled(config, mem, Join(repo), PermissionOf(config, q, Join(repo)) == AppendOnly, q);
  }

  lemma ConfigUploadHandled(config: Config, mem: Mem, r: string, marked: bool, q: Call)
    ensures var answer := Handled(config, mem, r, SaveConfig, marked, q);
      if (config.appendOnly || marked) && ConfigOf(mem, r).Some? then answer == Plain(mem, 403)
      else if q.body.None? || r !in mem.repos then answer == Plain(mem, 500)
      else if mem.used - SizeOf(ConfigOf(mem, r)) + |q.body.value| > mem.maxBytes then answer == Plain(mem, 507)
      else
        && answer.status == 200 && answer.content == Empty
        && ConfigOf(answer.mem, r) == q.body
        && OnlyConfigDiffers(mem, answer.mem, r)
  {
    ConfigChanges(mem, r, q.body);
    hide ConfigOf, AfterSaveConfig, OnlyConfigDiffers;
  }

  lemma ConfigChanges(mem: Mem, r: string, body: Option<Bytes>)
    ensures var mem' := AfterSaveConfig(mem, r, body);
      if SaveConfigError(mem, r, body).Some? then mem' == mem
      else ConfigOf(mem', r) == body && OnlyConfigDiffers(mem, mem', r)
  {
  }

  // ----- Repositories

  /** POST of "/" makes an empty repository, when it is asked to and there is none. */
  lemma Creation(config: Config, mem: Mem, q: Call, repo: seq<string>, slash: bool)
    requires Names(q.path, repo, [], slash) && q.verb == POST
    requires PermissionOf(config, q, Join(repo)) == AppendOnly || PermissionOf(config, q, Join(repo)) == FullAccess
    ensures var r, answer := Join(repo), Handle(config, mem, q);
      if !q.create then answer == Plain(mem, 400)
      else if r in mem.repos then answer == Plain(mem, 200)
      else
        && answer.status == 200 && answer.content == Empty
        && answer.mem.repos.Keys == mem.repos.Keys + {r}
        && answer.mem.used == mem.used && answer.mem.maxBytes == mem.maxBytes
        && ConfigOf(answer.mem, r) == None && (forall t, name :: BlobOf(answer.mem, r, t, name) == None)
        && (forall k :: k != r ==> SameRepo(mem, answer.mem, k))
  {
    hide *;
    RootRoutes(q.verb, slash);
    ReachedPost(config, mem, q, repo, [], slash, CreateRepo);
    CreationHandled(config, mem, Join(repo), PermissionOf(config, q, Join(repo)) == AppendOnly, q);
    CreationChanges(mem, Join(repo));
  }

  lemma CreationHandled(config: Config, mem: Mem, r: string, marked: bool, q: Call)
    ensures Handled(config, mem, r, CreateRepo, marked, q)
         == Plain(if q.create then AfterCreateRepo(mem, r) else mem, if q.create then 200 else 400)
    ensures forall m, status :: Plain(m, status) == Answer(m, status, Empty)
  {
  }

  lemma CreationChanges(mem: Mem, r: string)
    ensures var mem' := AfterCreateRepo(mem, r);
      if r in mem.repos then mem' == mem
      else
        && mem'.repos.Keys == mem.repos.Keys + {r} && mem'.used == mem.used && mem'.maxBytes == mem.maxBytes
        && ConfigOf(mem', r) == None && (forall t, name :: BlobOf(mem', r, t, name) == None)
        && (forall k :: k != r ==> SameRepo(mem, mem', k))
  {
  }

  /** DELETE of "/" removes the repository and nothing else, and gives its bytes back. */
  lemma RepoRemoval(config: Config, mem: Mem, q: Call, repo: seq<string>, slash: bool)
    requires Names(q.path, repo, [], slash) && q.verb == DELETE && PermissionOf(config, q, Join(repo)) == FullAccess
    ensures var r, answer := Join(repo), Handle(config, mem, q);
      if config.appendOnly then answer == Plain(mem, 403)
      else if r !in mem.repos then answer == Plain(mem, 404)
      else
        && answer.status == 200 && answer.content == Empty
        && answer.mem.repos == mem.repos - {r} && answer.mem.maxBytes == mem.maxBytes
        && (WellFormed(mem) ==> answer.mem.used == Total(mem.repos - {r}))
  {
    hide *;
    RootRoutes(q.verb, slash);
    ReachedFully(config, mem, q, repo, [], slash, DeleteRepo);
    RepoRemovalHandled(config, mem, Join(repo), q);
  }

  lemma RepoRemovalHandled(config: Config, mem: Mem, r: string, q: Call)
    ensures var answer := Handled(config, mem, r, DeleteRepo, false, q);
      if config.appendOnly then answer == Plain(mem, 403)
      else if r !in mem.repos then answer == Plain(mem, 404)
      else
        && answer.status == 200 && answer.content == Empty
        && answer.mem.repos == mem.repos - {r} && answer.mem.maxBytes == mem.maxBytes
        && (WellFormed(mem) ==> answer.mem.used == Total(mem.repos - {r}))
  {
    hide WellFormed, RepoSize;
    if WellFormed(mem) {
      RepoBytes(mem, r);
    }
  }

  lemma RepoBytes(mem: Mem, r: string)
    requires WellFormed(mem)
    ensures AfterDeleteRepo(mem, r).used == Total(AfterDeleteRepo(mem, r).repos)
  {
    DeleteRepoKeeps(mem, r);
  }

  // ----- Everything else

  /** What no part of a path may be. */
  predicate RefusedPart(part: string) {
    part == "." || part == ".." || '\0' in part || '\\' in part
  }

  /** Paths below the system prefix are not served here, and paths with such a part are refused. */
  lemma Unnamed(config: Config, mem: Mem, q: Call)
    ensures HasPrefix(q.path, "/-/") ==> Handle(config, mem, q) == Plain(mem, 404)
    ensures !HasPrefix(q.path, "/-/") && (exists part :: part in Split(q.path) && RefusedPart(part)) ==>
        Handle(config, mem, q) == Plain(mem, 400)
  {
    CheckedIsClean(q.path);
  }

  /** A known type and one segment of hex digits. */
  predicate NamesTarget(api: seq<string>, slash: bool) {
    |api| == 2 && !slash && api[0] in BLOB_TYPES && ValidBlobName(api[1])
  }

  /** No other method and path has a handler; a type or name that is not one is refused. Together with
      PathIsNamed and the lemmas above these are all requests. */
  lemma OtherRequests(config: Config, mem: Mem, q: Call, repo: seq<string>, api: seq<string>, slash: bool)
    requires Names(q.path, repo, api, slash) && PermissionOf(config, q, Join(repo)) == FullAccess
    ensures var answer := Handle(config, mem, q);
      && (q.verb == OtherVerb ==> answer == Plain(mem, 404))
      && (api == [] && (q.verb == GET || q.verb == HEAD) ==> answer == Plain(mem, 404))
      && (api == ["config"] && !slash && q.verb == DELETE ==> answer == Plain(mem, 404))
      && (|api| == 1 && slash && q.verb != GET ==> answer == Plain(mem, 404))
      && (|api| == 1 && slash && q.verb == GET && api[0] !in BLOB_TYPES ==> answer == Plain(mem, 400))
      && (|api| == 1 && !slash && api[0] != "config" ==> answer == Plain(mem, 404))
      && (|api| >= 2 && q.verb != OtherVerb && !NamesTarget(api, slash) ==> answer == Plain(mem, 400))
  {
    hide *;
    NamedIsRewritten(q.path, repo, api, slash);
    var route := RouteOf(q.verb, ApiPath(api, slash));
    ReachedFully(config, mem, q, repo, api, slash, route);
    OtherRoutes(q.verb, api, slash);
    RefusedHere(config, mem, Join(repo), q, route);
  }

  /** Which routes these are. */
  lemma OtherRoutes(verb: Verb, api: seq<string>, slash: bool)
    requires Clean(api)
    ensures var route := RouteOf(verb, ApiPath(api, slash));
      && (verb == OtherVerb ==> route == NoRoute)
      && (api == [] && (verb == GET || verb == HEAD) ==> route == NoRoute)
      && (api == ["config"] && !slash && verb == DELETE ==> route == NoRoute)
      && (|api| == 1 && slash && verb != GET ==> route == NoRoute)
      && (|api| == 1 && slash && verb == GET ==> route == ListBlobs(api[0]))
      && (|api| == 1 && !slash && api[0] != "config" ==> route == NoRoute)
      && (|api| >= 2 && verb != OtherVerb && !NamesTarget(api, slash) ==> BadTarget(route))
  {
    hide RouteOf, ApiPath, CleanSegment, ValidBlobName, NamesTarget;
    if api == [] {
      RootRoutes(verb, slash);
    } else if |api| == 1 {
      assert api == [api[0]];
      ConfigRoutes(verb);
      ListRoutes(verb, api[0]);
    } else {
      BlobRoutes(verb, api, slash);
      if !NamesTarget(api, slash) {
        NameIsBad(api, slash);
      }
    }
  }

  /** A route to a blob whose type or name is not one. */
  predicate BadTarget(route: Route) {
    match route
    case StatBlob(t, name) => t !in BLOB_TYPES || !ValidBlobName(name)
    case GetBlob(t, name) => t !in BLOB_TYPES || !ValidBlobName(name)
    case SaveBlob(t, name) => t !in BLOB_TYPES || !ValidBlobName(name)
    case DeleteBlob(t, name) => t !in BLOB_TYPES || !ValidBlobName(name)
    case _ => false
  }

  lemma RefusedHere(config: Config, mem: Mem, r: string, q: Call, route: Route)
    ensures var answer := Handled(config, mem, r, route, false, q);
      && (route == NoRoute ==> answer == Plain(mem, 404))
      && (route.ListBlobs? && route.t !in BLOB_TYPES ==> answer == Plain(mem, 400))
      && (BadTarget(route) ==> answer == Plain(mem, 400))
  {
    hide ValidBlobName;
  }

  lemma NameIsBad(api: seq<string>, slash: bool)
    requires |api| >= 2 && !NamesTarget(api, slash)
    ensures api[0] !in BLOB_TYPES || !ValidBlobName(NameIn(api, slash))
  {
    if slash || |api| > 2 {
      LongNameIsInvalid(api, slash);
    } else {
      assert api == [api[0], api[1]];
      NameOfBlob(api[0], api[1]);
    }
  }

  // ----- Reads give back what was written

  /** The request may change blob (t, name) of the repository: it posts or deletes under its name, or
      deletes the repository. */
  ghost predicate Touches(q: Call, repo: seq<string>, t: string, name: string) {
    || (Names(q.path, repo, [t, name], false) && (q.verb == POST || q.verb == DELETE))
    || (q.verb == DELETE && exists slash :: Names(q.path, repo, [], slash))
  }

  /** Other requests, to any repository, leave the blob as it is. */
  lemma OthersLeaveBlob(config: Config, mem: Mem, q: Call, repo: seq<string>, t: string, name: string)
    requires Clean(repo) && ValidTarget(t, name) && !Touches(q, repo, t, name)
    ensures BlobOf(Handle(config, mem, q).mem, Join(repo), t, name) == BlobOf(mem, Join(repo), t, name)
  {
    hide Handle, Clean, BlobOf, Touches;
    if KeyOf(q) != Some(Join(repo)) {
      RequestIsIsolated(config, mem, q, Join(repo));
      SameRepoSameBlob(mem, Handle(config, mem, q).mem, Join(repo), t, name);
    } else {
      var api, slash := AddressIn(q, repo);
      OtherRoute(q, repo, api, slash, t, name);
      OtherRouteLeaves(config, mem, q, repo, api, slash, t, name);
    }
  }

  lemma SameRepoSameBlob(m: Mem, m': Mem, r: string, t: string, name: string)
    requires SameRepo(m, m', r)
    ensures BlobOf(m', r, t, name) == BlobOf(m, r, t, name)
  {
  }

  /** What a request that addresses the repository names in it. */
  lemma AddressIn(q: Call, repo: seq<string>) returns (api: seq<string>, slash: bool)
    requires Clean(repo) && KeyOf(q) == Some(Join(repo))
    ensures Names(q.path, repo, api, slash)
  {
    hide Segments, Clean, Cut;
    CheckedIsClean(q.path);
    var found;
    found, api := PathIsNamed(q.path);
    slash := EndsWithSlash(q.path);
    NamedIsRewritten(q.path, found, api, slash);
    CleanFacts(found);
    CleanFacts(repo);
    SegmentsOfJoin(found);
    SegmentsOfJoin(repo);
  }

  lemma OtherRoute(q: Call, repo: seq<string>, api: seq<string>, slash: bool, t: string, name: string)
    requires Names(q.path, repo, api, slash) && ValidTarget(t, name) && !Touches(q, repo, t, name)
    ensures var route := RouteOf(q.verb, ApiPath(api, slash));
      route != SaveBlob(t, name) && route != DeleteBlob(t, name) && route != DeleteRepo
  {
    hide RouteOf, Names, ApiPath, ValidTarget;
    NamedIsRewritten(q.path, repo, api, slash);
    RouteNames(q.verb, api, slash, t, name);
  }

  lemma OtherRouteLeaves(config: Config, mem: Mem, q: Call, repo: seq<string>, api: seq<string>, slash: bool,
                         t: string, name: string)
    requires Names(q.path, repo, api, slash)
    requires var route := RouteOf(q.verb, ApiPath(api, slash));
      route != SaveBlob(t, name) && route != DeleteBlob(t, name) && route != DeleteRepo
    ensures BlobOf(Handle(config, mem, q).mem, Join(repo), t, name) == BlobOf(mem, Join(repo), t, name)
  {
    hide *;
    NamedIsRewritten(q.path, repo, api, slash);
    var marked, allowed := HandledOrRefused(config, mem, q, Join(repo), ApiPath(api, slash));
    OtherHandlersLeave(config, mem, Join(repo), RouteOf(q.verb, ApiPath(api, slash)), marked, q, t, name);
    if !allowed {
      PlainKeeps(mem);
    }
  }

  lemma HandledOrRefused(config: Config, mem: Mem, q: Call, prefix: string, path: string)
      returns (marked: bool, allowed: bool)
    requires Rewrite(q.path) == Rewritten(prefix, path)
    ensures Handle(config, mem, q) ==
            if allowed then Handled(config, mem, prefix, RouteOf(q.verb, path), marked, q) else Plain(mem, 403)
  {
    hide Rewrite, RouteOf, Handled, PermissionOf;
    marked := MarkedAppendOnly(config, q, prefix, ClassifyOperation(q.verb, path));
    allowed := Allows(PermissionOf(config, q, prefix), ClassifyOperation(q.verb, path));
  }

  lemma PlainKeeps(mem: Mem)
    ensures forall status :: Plain(mem, status).mem == mem
  {
  }

  lemma OtherHandlersLeave(config: Config, mem: Mem, key: string, route: Route, marked: bool, q: Call,
                           t: string, name: string)
    requires route != SaveBlob(t, name) && route != DeleteBlob(t, name) && route != DeleteRepo
    ensures BlobOf(Handled(config, mem, key, route, marked, q).mem, key, t, name) == BlobOf(mem, key, t, name)
  {
    hide RepoSize, ValidTarget;
  }

  lemma {:induction false} RunLeavesBlob(config: Config, mem: Mem, calls: seq<Call>,
                                         repo: seq<string>, t: string, name: string)
    requires Clean(repo) && ValidTarget(t, name)
    requires forall i :: 0 <= i < |calls| ==> !Touches(calls[i], repo, t, name)
    ensures BlobOf(AfterAll(config, mem, calls), Join(repo), t, name) == BlobOf(mem, Join(repo), t, name)
    decreases calls
  {
    if calls != [] {
      hide Handle, Touches, BlobOf, Clean;
      OthersLeaveBlob(config, mem, calls[0], repo, t, name);
      RunLeavesBlob(config, Handle(config, mem, calls[0]).mem, calls[1..], repo, t, name);
    }
  }

  /** An accepted upload is what every later download gives, until somebody posts or deletes under the
      same name or deletes the repository, whatever other requests come in between, to this repository
      or to others. */
  lemma UploadIsDownloaded(config: Config, mem: Mem, up: Call, calls: seq<Call>, down: Call,
                           repo: seq<string>, t: string, name: string)
    requires ValidTarget(t, name) && WellFormed(mem)
    requires Names(up.path, repo, [t, name], false) && up.verb == POST && Handle(config, mem, up).status == 200
    requires forall i :: 0 <= i < |calls| ==> !Touches(calls[i], repo, t, name)
    requires Names(down.path, repo, [t, name], false) && PermissionOf(config, down, Join(repo)) != Deny
    ensures up.body.Some?
    ensures var after := AfterAll(config, Handle(config, mem, up).mem, calls);
      var answer := Handle(config, after, down);
      && (down.verb == GET && BlobRange.ParseRange(down.range).None? ==>
            answer == Answer(after, 200, Server.Download(BlobRange.Full(up.body.value))))
      && (down.verb == HEAD ==> answer == Answer(after, 200, Length(|up.body.value|)))
  {
    hide *;
    AcceptedUpload(config, mem, up, repo, t, name);
    NamedIsRewritten(up.path, repo, [t, name], false);
    var after := AfterAll(config, Handle(config, mem, up).mem, calls);
    RunLeavesBlob(config, Handle(config, mem, up).mem, calls, repo, t, name);
    if down.verb == GET && BlobRange.ParseRange(down.range).None? {
      Download(config, after, down, repo, t, name);
    } else if down.verb == HEAD {
      Probe(config, after, down, repo, t, name);
    }
  }

  /** A write or deletion that is answered with 200 was allowed. */
  lemma LetThrough(config: Config, mem: Mem, q: Call, repo: seq<string>, api: seq<string>, slash: bool)
    requires Names(q.path, repo, api, slash) && Handle(config, mem, q).status == 200
    requires q.verb == POST || q.verb == DELETE
    ensures PermissionOf(config, q, Join(repo)) == FullAccess || PermissionOf(config, q, Join(repo)) == AppendOnly
    ensures q.verb == DELETE ==> PermissionOf(config, q, Join(repo)) == FullAccess || (api != [] && api[0] == "locks")
  {
    AccessDecides(config, mem, q, repo, api, slash);
    hide Handle, Names, PermissionOf;
  }

  lemma PlainStatus(mem: Mem)
    ensures forall status :: Plain(mem, status).status == status
  {
  }

  lemma AcceptedUpload(config: Config, mem: Mem, up: Call, repo: seq<string>, t: string, name: string)
    requires ValidTarget(t, name) && WellFormed(mem)
    requires Names(up.path, repo, [t, name], false) && up.verb == POST && Handle(config, mem, up).status == 200
    ensures up.body.Some? && BlobOf(Handle(config, mem, up).mem, Join(repo), t, name) == up.body
  {
    hide *;
    LetThrough(config, mem, up, repo, [t, name], false);
    Upload(config, mem, up, repo, t, name);
    PlainStatus(mem);
  }

  /** A deleted blob is gone until somebody posts under its name. */
  lemma RemovedIsMissing(config: Config, mem: Mem, del: Call, calls: seq<Call>, down: Call,
                         repo: seq<string>, t: string, name: string)
    requires ValidTarget(t, name)
    requires Names(del.path, repo, [t, name], false) && del.verb == DELETE && Handle(config, mem, del).status == 200
    requires forall i :: 0 <= i < |calls| ==> !Touches(calls[i], repo, t, name)
    requires Names(down.path, repo, [t, name], false) && PermissionOf(config, down, Join(repo)) != Deny
    requires (down.verb == GET || down.verb == HEAD) && BlobRange.ParseRange(down.range).None?
    ensures var after := AfterAll(config, Handle(config, mem, del).mem, calls);
      Handle(config, after, down).status == 404
  {
    hide *;
    AcceptedRemoval(config, mem, del, repo, t, name);
    NamedIsRewritten(del.path, repo, [t, name], false);
    var after := AfterAll(config, Handle(config, mem, del).mem, calls);
    RunLeavesBlob(config, Handle(config, mem, del).mem, calls, repo, t, name);
    PlainStatus(after);
    if down.verb == GET {
      Download(config, after, down, repo, t, name);
    } else {
      Probe(config, after, down, repo, t, name);
    }
  }

  lemma AcceptedRemoval(config: Config, mem: Mem, del: Call, repo: seq<string>, t: string, name: string)
    requires ValidTarget(t, name)
    requires Names(del.path, repo, [t, name], false) && del.verb == DELETE && Handle(config, mem, del).status == 200
    ensures BlobOf(mem, Join(repo), t, name).Some? && BlobOf(Handle(config, mem, del).mem, Join(repo), t, name) == None
  {
    hide *;
    LetThrough(config, mem, del, repo, [t, name], false);
    Removal(config, mem, del, repo, t, name);
    PlainStatus(mem);
  }

  /** A config that is there stays what GET of "/config" answers, over every run in which the repository
      is at most appended to, other repositories being treated in any way. */
  lemma ConfigIsServed(config: Config, mem: Mem, calls: seq<Call>, down: Call, repo: seq<string>)
    requires forall i :: 0 <= i < |calls| ==> AtMostAppends(config, calls[i], Join(repo))
    requires Names(down.path, repo, ["config"], false) && ConfigOf(mem, Join(repo)).Some?
    requires PermissionOf(config, down, Join(repo)) != Deny && down.verb == GET
    ensures var end := AfterAll(config, mem, calls);
      Handle(config, end, down) == Answer(end, 200, Whole(ConfigOf(mem, Join(repo)).value))
  {
    AppendOnlyRun(config, mem, calls, Join(repo));
    var end := AfterAll(config, mem, calls);
    KeptConfig(mem, end, Join(repo));
    hide Handle, Names, AtMostAppends, PermissionOf, AfterAll, ConfigOf, Preserved;
    ConfigDownload(config, end, down, repo);
  }

  lemma KeptConfig(m: Mem, m': Mem, r: string)
    requires Preserved(m, m', r)
    ensures ConfigOf(m, r).Some? ==> ConfigOf(m', r) == ConfigOf(m, r)
  {
  }
}
