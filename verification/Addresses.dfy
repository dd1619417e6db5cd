/**
 What a request path names: the repository, and the part of the API (internal/middleware/repoprefix.go
 together with internal/api/router.go). The handler that a method and a path reach, in terms of the
 segments of the raw path.
 */
module Addresses {
  import opened Prelude
  import opened Text
  import opened RepoPrefix
  import opened BlobNames
  import Server

  /** The path names the repository `repo`, and `api` in it: its segments, repeated slashes aside, are
      those of the two, and `api` begins with the first API segment. `slash` is its trailing slash. */
  ghost predicate Names(path: string, repo: seq<string>, api: seq<string>, slash: bool) {
    && !IsSystem(path)
    && Segments(path) == repo + api && Clean(repo + api) && EndsWithSlash(path) == slash
    && (forall i :: 0 <= i < |repo| ==> repo[i] !in KNOWN_SEGMENTS)
    && (api != [] ==> api[0] in KNOWN_SEGMENTS)
  }

  /** The API path that the routes see. */
  function ApiPath(api: seq<string>, slash: bool): string {
    if api == [] then "/" else "/" + Join(api) + (if slash then "/" else "")
  }

  lemma NamedIsRewritten(path: string, repo: seq<string>, api: seq<string>, slash: bool)
    requires Names(path, repo, api, slash)
    ensures Rewrite(path) == Rewritten(Join(repo), ApiPath(api, slash))
    ensures Clean(repo) && Clean(api)
  {
    hide Segments, Clean, CheckedSegments;
    CheckedIsClean(path);
    var segs := repo + api;
    FirstKnownIs(segs, |repo|);
    assert segs[..|repo|] == repo && segs[|repo|..] == api;
    PartsAreClean(repo, api);
    if api == [] {
      assert segs == repo;
    }
  }

  lemma PartsAreClean(repo: seq<string>, api: seq<string>)
    requires Clean(repo + api)
    ensures Clean(repo) && Clean(api)
  {
    var segs := repo + api;
    assert forall i :: 0 <= i < |repo| ==> repo[i] == segs[i];
    assert forall i :: 0 <= i < |api| ==> api[i] == segs[|repo| + i];
  }

  /** A path is a system route, is refused for a segment, or names one repository and one part of it. */
  lemma PathIsNamed(path: string) returns (repo: seq<string>, api: seq<string>)
    ensures !IsSystem(path) && (forall part :: part in Split(path) ==> !Bad(part)) <==>
      Names(path, repo, api, EndsWithSlash(path))
  {
    hide Segments;
    CheckedIsClean(path);
    var segs := Segments(path);
    var k := FirstKnown(segs);
    repo, api := segs[..k], segs[k..];
    assert repo + api == segs;
  }

  lemma NamedOnce(path: string, repo: seq<string>, api: seq<string>, slash: bool,
                  repo': seq<string>, api': seq<string>, slash': bool)
    requires Names(path, repo, api, slash) && Names(path, repo', api', slash')
    ensures repo == repo' && api == api' && slash == slash'
  {
    hide Segments, Clean;
    var segs := repo + api;
    assert segs == repo' + api';
    FirstKnownIs(segs, |repo|) by { assert forall i :: 0 <= i < |repo| ==> segs[i] == repo[i]; }
    FirstKnownIs(segs, |repo'|) by { assert forall i :: 0 <= i < |repo'| ==> segs[i] == repo'[i]; }
    assert segs[..|repo|] == repo && segs[..|repo|] == repo';
    assert segs[|repo|..] == api && segs[|repo|..] == api';
  }

  /** The path as a client writes it: "/", the segments joined by slashes, and maybe a slash. */
  lemma WrittenIsNamed(path: string, repo: seq<string>, api: seq<string>, slash: bool)
    requires path == "/" + Join(repo + api) + (if slash then "/" else "") && !IsSystem(path)
    requires Clean(repo + api) && repo + api != [] && (api != [] ==> api[0] in KNOWN_SEGMENTS)
    requires forall i :: 0 <= i < |repo| ==> repo[i] !in KNOWN_SEGMENTS
    ensures Names(path, repo, api, slash)
  {
    hide Segments;
    var segs := repo + api;
    SegmentsOfRooted(segs, slash);
    CleanJoinEnds(segs);
    if !slash {
      assert path[|path| - 1] == Join(segs)[|Join(segs)| - 1];
    }
  }

  /** The API segments are the config and the blob types. */
  lemma ApiSegments()
    ensures KNOWN_SEGMENTS == BLOB_TYPES + {"config"} && "config" !in BLOB_TYPES
  {
  }

  // ----- Routes

  /** Behind the type segment the rest is the name, slashes included. */
  function NameIn(api: seq<string>, slash: bool): string
    requires api != []
  {
    Join(api[1..]) + (if slash then "/" else "")
  }

  lemma SecondSlash(path: string, k: nat)
    requires 1 <= k < |path| && path[k] == '/'
    ensures path != "/" && path != "/config" && path != "/locks"
  {
  }

  lemma TypeRoute(verb: Server.Verb, path: string, t: string, name: string)
    requires path == "/" + t + "/" + name && '/' !in t
    ensures var route := Server.RouteOf(verb, path);
      if name == "" then route == if verb == Server.GET then Server.ListBlobs(t) else Server.NoRoute
      else match verb
        case HEAD => route == Server.StatBlob(t, name)
        case GET => route == Server.GetBlob(t, name)
        case POST => route == Server.SaveBlob(t, name)
        case DELETE => route == Server.DeleteBlob(t, name)
        case OtherVerb => route == Server.NoRoute
  {
    hide Server.FirstSlash;
    SecondSlash(path, |t| + 1);
    var rest := t + "/" + name;
    assert path[1..] == rest;
    Server.FirstSlashAfter(t, name);
    assert rest[..|t|] == t && rest[|t| + 1..] == name;
  }

  lemma {:induction false} NoSlash(t: string)
    requires '/' !in t
    ensures Server.FirstSlash(t) == |t|
  {
    if t != "" {
      NoSlash(t[1..]);
    }
  }

  lemma OneSegmentRoute(verb: Server.Verb, path: string, t: string)
    requires path == "/" + t && '/' !in t && t != "" && t != "config"
    ensures Server.RouteOf(verb, path) == Server.NoRoute
  {
    hide Server.FirstSlash;
    assert path[1..] == t && "/config"[1..] == "config";
    NoSlash(t);
  }

  lemma RootRoutes(verb: Server.Verb, slash: bool)
    ensures var route := Server.RouteOf(verb, ApiPath([], slash));
      match verb
      case POST => route == Server.CreateRepo
      case DELETE => route == Server.DeleteRepo
      case _ => route == Server.NoRoute
  {
  }

  lemma ConfigRoutes(verb: Server.Verb)
    ensures var route := Server.RouteOf(verb, ApiPath(["config"], false));
      match verb
      case HEAD => route == Server.StatConfig
      case GET => route == Server.GetConfig
      case POST => route == Server.SaveConfig
      case _ => route == Server.NoRoute
  {
    assert ApiPath(["config"], false) == "/config";
  }

  lemma ListRoutes(verb: Server.Verb, t: string)
    requires CleanSegment(t)
    ensures Server.RouteOf(verb, ApiPath([t], true))
         == if verb == Server.GET then Server.ListBlobs(t) else Server.NoRoute
    ensures t != "config" ==> Server.RouteOf(verb, ApiPath([t], false)) == Server.NoRoute
  {
    hide Server.RouteOf;
    OneSegmentPath(t);
    TypeRoute(verb, ApiPath([t], true), t, "");
    if t != "config" {
      OneSegmentRoute(verb, ApiPath([t], false), t);
    }
  }

  lemma OneSegmentPath(t: string)
    ensures ApiPath([t], true) == "/" + t + "/" + "" && ApiPath([t], false) == "/" + t
  {
    assert Join([t]) == t;
  }

  lemma TypeIsClean(api: seq<string>)
    requires api != [] && Clean(api)
    ensures '/' !in api[0]
  {
    assert CleanSegment(api[0]);
  }

  lemma LongPath(api: seq<string>, slash: bool)
    requires |api| >= 2 && Clean(api)
    ensures ApiPath(api, slash) == "/" + api[0] + "/" + NameIn(api, slash) && NameIn(api, slash) != ""
  {
    assert CleanSegment(api[1]);
    JoinHead(api[1..]);
    assert api[1] <= Join(api[1..]);
    assert Join(api) == api[0] + "/" + Join(api[1..]);
  }

  lemma BlobRoutes(verb: Server.Verb, api: seq<string>, slash: bool)
    requires |api| >= 2 && Clean(api)
    ensures var t, name, route := api[0], NameIn(api, slash), Server.RouteOf(verb, ApiPath(api, slash));
      match verb
      case HEAD => route == Server.StatBlob(t, name)
      case GET => route == Server.GetBlob(t, name)
      case POST => route == Server.SaveBlob(t, name)
      case DELETE => route == Server.DeleteBlob(t, name)
      case OtherVerb => route == Server.NoRoute
  {
    hide Server.RouteOf;
    TypeIsClean(api);
    LongPath(api, slash);
    hide *;
    TypeRoute(verb, ApiPath(api, slash), api[0], NameIn(api, slash));
  }

  /** A name that is no single segment is no blob name. */
  lemma LongNameIsInvalid(api: seq<string>, slash: bool)
    requires |api| >= 2 && (slash || |api| > 2)
    ensures !ValidBlobName(NameIn(api, slash))
  {
    var name := NameIn(api, slash);
    var k := if slash then |name| - 1 else |api[1]|;
    assert name[k] == '/' by {
      if !slash {
        assert Join(api[1..]) == api[1..][0] + "/" + Join(api[1..][1..]);
      }
    }
  }

  lemma NameOfBlob(t: string, name: string)
    ensures NameIn([t, name], false) == name
  {
    assert [t, name][1..] == [name];
    assert Join([name]) == name;
  }

  lemma ShortName(api: seq<string>, slash: bool, name: string)
    requires |api| >= 2 && NameIn(api, slash) == name && ValidBlobName(name)
    ensures api == [api[0], name] && !slash
  {
    if slash || |api| > 2 {
      LongNameIsInvalid(api, slash);
    } else {
      assert api == [api[0], api[1]];
      NameOfBlob(api[0], api[1]);
    }
  }

  /** Which paths the routes that change a blob come from. */
  lemma RouteNames(verb: Server.Verb, api: seq<string>, slash: bool, t: string, name: string)
    requires Clean(api) && ValidTarget(t, name)
    ensures var route := Server.RouteOf(verb, ApiPath(api, slash));
      && (route == Server.SaveBlob(t, name) ==> verb == Server.POST && api == [t, name] && !slash)
      && (route == Server.DeleteBlob(t, name) ==> verb == Server.DELETE && api == [t, name] && !slash)
      && (route == Server.DeleteRepo ==> verb == Server.DELETE && api == [])
  {
    hide Server.RouteOf, ApiPath, CleanSegment, ValidBlobName;
    if api == [] {
      RootRoutes(verb, slash);
    } else if |api| == 1 {
      assert api == [api[0]];
      ConfigRoutes(verb);
      ListRoutes(verb, api[0]);
    } else {
      BlobRoutes(verb, api, slash);
      if NameIn(api, slash) == name {
        ShortName(api, slash, name);
      }
    }
  }

  /** The route of a request that names a blob. */
  lemma BlobRoute(q: Server.Call, repo: seq<string>, t: string, name: string)
    requires Names(q.path, repo, [t, name], false)
    ensures var route := Server.RouteOf(q.verb, ApiPath([t, name], false));
      match q.verb
      case GET => route == Server.GetBlob(t, name) case HEAD => route == Server.StatBlob(t, name)
      case POST => route == Server.SaveBlob(t, name) case DELETE => route == Server.DeleteBlob(t, name)
      case OtherVerb => route == Server.NoRoute
  {
    hide *;
    NamedIsRewritten(q.path, repo, [t, name], false);
    BlobRoutes(q.verb, [t, name], false);
    NameOfBlob(t, name);
  }

  /** The route of a request that names a type. */
  lemma ListRoute(q: Server.Call, repo: seq<string>, t: string)
    requires Names(q.path, repo, [t], true) && q.verb == Server.GET
    ensures Server.RouteOf(q.verb, ApiPath([t], true)) == Server.ListBlobs(t)
  {
    hide *;
    NamedIsRewritten(q.path, repo, [t], true);
    FirstIsClean([t]);
    ListRoutes(q.verb, t);
  }

  lemma FirstIsClean(segs: seq<string>)
    requires Clean(segs) && segs != []
    ensures CleanSegment(segs[0])
  {
  }
}
