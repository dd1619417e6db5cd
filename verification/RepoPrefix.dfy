/**
 The pre-routing step (internal/middleware/repoprefix.go): a request path is split into checked
 segments, and cut at the first API segment into a repository prefix and an API path.
 */
module RepoPrefix {
  import opened Prelude
  import opened Text

  const KNOWN_SEGMENTS: set<string> := {"config", "data", "keys", "locks", "snapshots", "index"}

  datatype PathError = Traversal | InvalidCharacters

  predicate Traversing(part: string) {
    part == "." || part == ".."
  }

  predicate InvalidChars(part: string) {
    '\0' in part || '\\' in part
  }

  predicate Bad(part: string) {
    Traversing(part) || InvalidChars(part)
  }

  /** A segment that SplitRepoPath lets through. */
  predicate CleanSegment(seg: string) {
    seg != "" && '/' !in seg && !Bad(seg)
  }

  predicate Clean(segs: seq<string>) {
    forall i :: 0 <= i < |segs| ==> CleanSegment(segs[i])
  }

  /** The position of the first part that is rejected, or the number of parts. */
  function FirstBad(parts: seq<string>): (i: nat)
    ensures i <= |parts|
    ensures forall j :: 0 <= j < i ==> !Bad(parts[j])
    ensures i < |parts| ==> Bad(parts[i])
  {
    if parts == [] || Bad(parts[0]) then 0 else 1 + FirstBad(parts[1..])
  }

  /** What SplitRepoPath answers: the first rejected part decides the error. */
  function CheckedSegments(p: string): Result<seq<string>, PathError> {
    var parts := Split(p);
    var i := FirstBad(parts);
    if i < |parts| then Err(if Traversing(parts[i]) then Traversal else InvalidCharacters)
    else Ok(NonEmpty(parts))
  }

  method SplitRepoPath(p: string) returns (r: Result<seq<string>, PathError>)
    ensures r == CheckedSegments(p)
    ensures r.Ok? ==> Clean(r.value) && r.value == Segments(p)
  {
    hide Split, Clean, Segments;
    assert !Traversing("") && !InvalidChars("");
    hide Traversing, InvalidChars;
    CheckedIsClean(p);
    var parts := Split(p);
    var segments: seq<string> := [];
    for k := 0 to |parts|
      invariant forall j :: 0 <= j < k ==> !Bad(parts[j])
      invariant segments == NonEmpty(parts[..k])
    {
      var seg := parts[k];
      assert parts[..k + 1] == parts[..k] + [seg];
      NonEmptyAppend(parts[..k], [seg]);
      if seg == "" {
        continue;
      }
      FirstBadIs(parts, k);
      if Traversing(seg) {
        return Err(Traversal);
      }
      if InvalidChars(seg) {
        return Err(InvalidCharacters);
      }
      segments := segments + [seg];
    }
    assert parts[..|parts|] == parts;
    assert FirstBad(parts) == |parts|;
    return Ok(segments);
  }

  lemma {:induction false} FirstBadIs(parts: seq<string>, k: nat)
    requires k < |parts|
    requires forall j :: 0 <= j < k ==> !Bad(parts[j])
    ensures Bad(parts[k]) ==> FirstBad(parts) == k
  {
    if k > 0 {
      FirstBadIs(parts[1..], k - 1);
    }
  }

  /** The checks accept a path exactly when no part is bad, and then its segments are clean. */
  lemma CheckedIsClean(p: string)
    ensures CheckedSegments(p).Ok? <==> forall part :: part in Split(p) ==> !Bad(part)
    ensures CheckedSegments(p).Ok? <==> Clean(Segments(p))
    ensures CheckedSegments(p).Ok? ==> CheckedSegments(p).value == Segments(p)
  {
    hide Split;
    var parts := Split(p);
    SplitIsSlashFree(p);
    NonEmptyKeeps(parts);
    forall part | part in parts && CheckedSegments(p).Ok?
      ensures !Bad(part)
    {
      var j :| 0 <= j < |parts| && parts[j] == part;
    }
  }

  /** The first rejected part decides the error. */
  lemma FirstRejectedDecides(p: string, k: nat)
    requires k < |Split(p)| && forall j :: 0 <= j < k ==> !Bad(Split(p)[j])
    ensures var part := Split(p)[k];
      && (part == "." || part == ".." ==> CheckedSegments(p) == Err(Traversal))
      && (part != "." && part != ".." && ('\0' in part || '\\' in part) ==>
            CheckedSegments(p) == Err(InvalidCharacters))
  {
    hide Split;
    FirstBadIs(Split(p), k);
  }

  lemma {:induction false} NonEmptyKeeps(parts: seq<string>)
    ensures forall part :: part in parts && part != "" ==> part in NonEmpty(parts)
  {
    if parts != [] {
      NonEmptyKeeps(parts[1..]);
    }
  }

  // ----- The rewrite

  /** The position of the first API segment, or the number of segments. */
  function FirstKnown(segs: seq<string>): (i: nat)
    ensures i <= |segs|
    ensures forall j :: 0 <= j < i ==> segs[j] !in KNOWN_SEGMENTS
    ensures i < |segs| ==> segs[i] in KNOWN_SEGMENTS
  {
    if segs == [] || segs[0] in KNOWN_SEGMENTS then 0 else 1 + FirstKnown(segs[1..])
  }

  /** What becomes of a request path: left alone (system route), refused, or rewritten. */
  datatype Outcome =
    | Bypass(system: string)
    | BadRequest(error: PathError)
    | Rewritten(prefix: string, path: string)

  predicate IsSystem(p: string) {
    HasPrefix(p, "/-/")
  }

  function Cut(segs: seq<string>, slash: bool): Outcome {
    var i := FirstKnown(segs);
    if i < |segs| then Rewritten(Join(segs[..i]), "/" + Join(segs[i..]) + (if slash then "/" else ""))
    else Rewritten(Join(segs), "/")
  }

  function Rewrite(p: string): Outcome {
    if IsSystem(p) then Bypass(p)
    else match CheckedSegments(p)
      case Err(e) => BadRequest(e)
      case Ok(segs) => Cut(segs, EndsWithSlash(p))
  }

  /** The part of a request that the middleware rewrites: URL path and context value. */
  class Request {
    var path: string
    var prefix: string

    constructor (path: string)
      ensures this.path == path && prefix == ""
    {
      this.path := path;
      prefix := "";
    }

    /** Rewrites path and prefix in place; None means the request goes on. */
    method ApplyRepoPrefix() returns (refused: Option<PathError>)
      modifies this
      ensures match Rewrite(old(path))
        case Bypass(p) => refused == None && path == p && prefix == old(prefix)
        case BadRequest(e) => refused == Some(e) && path == old(path) && prefix == old(prefix)
        case Rewritten(pre, api) => refused == None && path == api && prefix == pre
    {
      if IsSystem(path) {
        return None;
      }
      var checked := SplitRepoPath(path);
      if checked.Err? {
        return Some(checked.error);
      }
      var segments := checked.value;
      for i := 0 to |segments|
        invariant path == old(path) && prefix == old(prefix)
        invariant forall j :: 0 <= j < i ==> segments[j] !in KNOWN_SEGMENTS
      {
        if segments[i] in KNOWN_SEGMENTS {
          FirstKnownIs(segments, i);
          var apiPath := "/" + Join(segments[i..]);
          if EndsWithSlash(path) {
            apiPath := apiPath + "/";
          }
          prefix := Join(segments[..i]);
          path := apiPath;
          return None;
        }
      }
      FirstKnownIs(segments, |segments|);
      prefix := Join(segments);
      path := "/";
      return None;
    }
  }

  lemma {:induction false} FirstKnownIs(segs: seq<string>, i: nat)
    requires i <= |segs|
    requires forall j :: 0 <= j < i ==> segs[j] !in KNOWN_SEGMENTS
    requires i < |segs| ==> segs[i] in KNOWN_SEGMENTS
    ensures FirstKnown(segs) == i
  {
    if i > 0 {
      FirstKnownIs(segs[1..], i - 1);
    }
  }

  // ----- What the rewrite promises

  lemma CleanFacts(segs: seq<string>)
    requires Clean(segs)
    ensures SlashFree(segs) && "" !in segs
  {
  }

  lemma {:induction false} CleanJoinEnds(segs: seq<string>)
    requires Clean(segs)
    ensures (Join(segs) == "") == (segs == [])
    ensures segs != [] ==> Join(segs)[0] != '/' && !EndsWithSlash(Join(segs)) && Join(segs)[0] == segs[0][0]
  {
    if |segs| > 1 {
      CleanJoinEnds(segs[1..]);
      var rest := Join(segs[1..]);
      assert Join(segs)[|Join(segs)| - 1] == rest[|rest| - 1];
    } else if |segs| == 1 {
      assert segs[0][|segs[0]| - 1] in segs[0];
    }
  }

  lemma SegmentsOfRooted(segs: seq<string>, slash: bool)
    requires Clean(segs)
    ensures Segments("/" + Join(segs) + (if slash then "/" else "")) == segs
  {
    hide Segments, Join, Clean;
    CleanFacts(segs);
    SegmentsOfJoin(segs);
    EmptyHasNoSegments();
    var s := Join(segs) + (if slash then "/" else "");
    assert "" + "/" + s == "/" + Join(segs) + (if slash then "/" else "");
    SegmentsAtSlash("", s);
    if slash {
      assert Join(segs) + "/" + "" == s;
      SegmentsAtSlash(Join(segs), "");
    } else {
      assert s == Join(segs);
    }
  }

  /** The two halves of a cut: the prefix holds the segments before the first API segment ... */
  lemma CutPrefix(segs: seq<string>, slash: bool)
    requires Clean(segs)
    ensures Cut(segs, slash).prefix == Join(segs[..FirstKnown(segs)])
    ensures Segments(Cut(segs, slash).prefix) == segs[..FirstKnown(segs)]
  {
    var i := FirstKnown(segs);
    assert Clean(segs[..i]);
    SegmentsOfJoin(segs[..i]);
    if i == |segs| {
      assert segs[..i] == segs;
    }
  }

  /** ... and the API path the others, with the trailing slash of the original. */
  lemma CutPath(segs: seq<string>, slash: bool)
    requires Clean(segs) && FirstKnown(segs) < |segs|
    ensures var rest := segs[FirstKnown(segs)..]; var api := Cut(segs, slash).path;
      && Segments(api) == rest
      && HasPrefix(api, "/" + rest[0])
      && api != "/"
      && EndsWithSlash(api) == slash
  {
    var rest := segs[FirstKnown(segs)..];
    assert Clean(rest);
    SegmentsOfRooted(rest, slash);
    CleanJoinEnds(rest);
    JoinHead(rest);
    WrapKeepsEnds(Join(rest), rest[0], slash);
  }

  lemma WrapKeepsEnds(s: string, head: string, slash: bool)
    requires s != "" && !EndsWithSlash(s) && HasPrefix(s, head)
    ensures var api := "/" + s + (if slash then "/" else "");
      HasPrefix(api, "/" + head) && api != "/" && EndsWithSlash(api) == slash
  {
    var tail := if slash then "/" else "";
    var api := "/" + s + tail;
    assert api == "/" + head + (s[|head|..] + tail);
    assert api[|s|] == s[|s| - 1];
  }

  lemma JoinHead(segs: seq<string>)
    requires segs != []
    ensures HasPrefix(Join(segs), segs[0])
  {
  }

  lemma RootHasNoSegments()
    ensures Segments("/") == []
  {
    assert "/"[1..] == "";
    assert Split("/") == ["", ""];
    assert ["", ""][1..] == [""];
  }

  /** Nothing is lost and nothing is misplaced: the prefix is the joined segments before the first
      API segment, the API path starts with that segment (or is "/" when there is none), and the
      two together have exactly the segments of the original path. */
  lemma RewriteSplitsPath(p: string)
    requires Rewrite(p).Rewritten?
    ensures var r := Rewrite(p);
      && Clean(Segments(p))
      && r.prefix == Join(Segments(r.prefix))
      && Segments(r.prefix) + Segments(r.path) == Segments(p)
      && (forall seg :: seg in Segments(r.prefix) ==> seg !in KNOWN_SEGMENTS)
      && (r.path != "/" ==> Segments(r.path) != [] && Segments(r.path)[0] in KNOWN_SEGMENTS
                            && HasPrefix(r.path, "/" + Segments(r.path)[0]))
      && (r.path == "/" <==> forall seg :: seg in Segments(p) ==> seg !in KNOWN_SEGMENTS)
  {
    hide Segments;
    CheckedIsClean(p);
    var segs := Segments(p);
    var i := FirstKnown(segs);
    CutPrefix(segs, EndsWithSlash(p));
    if i < |segs| {
      CutPath(segs, EndsWithSlash(p));
      assert segs[..i] + segs[i..] == segs;
      assert segs[i] in segs;
    } else {
      assert segs[..i] == segs;
      RootHasNoSegments();
    }
  }

  /** The outcome carries the segments of the path, whether it named an API segment, and (only
      then) whether it ended in a slash, and nothing else. */
  lemma RewriteSameIff(p: string, q: string)
    requires Rewrite(p).Rewritten? && Rewrite(q).Rewritten?
    ensures Rewrite(p) == Rewrite(q) <==>
      && Segments(p) == Segments(q)
      && (EndsWithSlash(p) == EndsWithSlash(q) || Rewrite(p).path == "/")
  {
    CheckedIsClean(p);
    CheckedIsClean(q);
    RewriteSplitsPath(p);
    RewriteSplitsPath(q);
    if Rewrite(p) == Rewrite(q) && Rewrite(p).path != "/" {
      TrailingSlashKept(p);
      TrailingSlashKept(q);
    }
  }

  lemma TrailingSlashKept(p: string)
    requires Rewrite(p).Rewritten? && Rewrite(p).path != "/"
    ensures EndsWithSlash(Rewrite(p).path) == EndsWithSlash(p)
  {
    CheckedIsClean(p);
    CutPath(Segments(p), EndsWithSlash(p));
  }

  /** Repeated slashes never matter, with one exception that the system-route test makes: it looks
      at the raw path, so "//-/x" is an ordinary path while its collapsed form is a system route. */
  lemma RewriteIgnoresRepeatedSlashes(p: string)
    ensures Rewrite(p) == Rewrite(Collapse(p)) <==> (IsSystem(Collapse(p)) ==> Collapse(p) == p)
  {
    CollapseKeepsSegments(p);
    CollapseTail(p);
    CheckedIsClean(p);
    CheckedIsClean(Collapse(p));
    if IsSystem(p) {
      SystemSurvivesCollapse(p);
    }
    if CheckedSegments(p).Err? {
      CollapseSameError(p);
    }
  }

  lemma SystemSurvivesCollapse(p: string)
    requires IsSystem(p)
    ensures IsSystem(Collapse(p))
  {
    var p1, p2 := p[1..], p[2..];
    assert p[0] == '/' && p1[0] == '-' && p2[0] == '/';
    CollapseHead(p2);
    assert Collapse(p1) == ['-'] + Collapse(p2);
    assert Collapse(p) == ['/'] + Collapse(p1);
  }

  lemma {:induction false} FirstBadOfNonEmpty(parts: seq<string>)
    ensures (FirstBad(parts) < |parts|) == (FirstBad(NonEmpty(parts)) < |NonEmpty(parts)|)
    ensures FirstBad(parts) < |parts| ==> parts[FirstBad(parts)] == NonEmpty(parts)[FirstBad(NonEmpty(parts))]
  {
    if parts != [] {
      assert !Bad("");
      hide Bad;
      FirstBadOfNonEmpty(parts[1..]);
      if parts[0] != "" {
        assert NonEmpty(parts)[1..] == NonEmpty(parts[1..]);
      } else {
        assert NonEmpty(parts) == NonEmpty(parts[1..]);
      }
    }
  }

  lemma CollapseSameError(p: string)
    ensures CheckedSegments(p) == CheckedSegments(Collapse(p))
  {
    CollapseKeepsSegments(p);
    FirstBadOfNonEmpty(Split(p));
    FirstBadOfNonEmpty(Split(Collapse(p)));
  }

  /** The exception is real. */
  lemma RepeatedSlashCounterexample(p: string)
    requires p == "//-/x"
    ensures Rewrite(p) != Rewrite(Collapse(p))
  {
    CollapseExample();
    RewriteIgnoresRepeatedSlashes(p);
  }

  lemma CollapseExample()
    ensures Collapse("//-/x") == "/-/x"
  {
    var p := "//-/x";
    assert p[1..] == "/-/x" && p[2..] == "-/x" && p[3..] == "/x" && p[4..] == "x" && p[5..] == "";
    assert Collapse(p[4..]) == "x";
    assert Collapse(p[3..]) == "/x" by { assert p[3..][1..] == p[4..]; }
    assert Collapse(p[2..]) == "-/x" by { assert p[2..][1..] == p[3..]; }
    assert Collapse(p[1..]) == "/-/x" by { assert p[1..][1..] == p[2..]; }
  }

  lemma SegmentsOfRebuilt(prefix: string, path: string)
    requires path != "" && path[0] == '/'
    ensures Segments("/" + prefix + path) == Segments(prefix) + Segments(path)
  {
    hide Segments;
    var rest := path[1..];
    assert path == "/" + rest;
    assert "/" + prefix + path == ("" + "/" + prefix) + "/" + rest;
    SegmentsAtSlash("" + "/" + prefix, rest);
    SegmentsAtSlash("", prefix);
    SegmentsAtSlash("", rest);
    assert "" + "/" + rest == path;
    EmptyHasNoSegments();
  }

  lemma EmptyHasNoSegments()
    ensures Segments("") == []
  {
    assert NonEmpty([""][1..]) == [];
  }

  /** Rewriting is a normal form: the path rebuilt from prefix and API path is rewritten to the
      same pair, unless the rebuilt path reads as a system route. */
  lemma RewriteIsNormalForm(p: string)
    requires Rewrite(p).Rewritten?
    ensures var again := "/" + Rewrite(p).prefix + Rewrite(p).path;
      Rewrite(again) == Rewrite(p) <==> !IsSystem(again)
  {
    hide Segments, Clean, CheckedSegments, Cut;
    var Rewritten(prefix, path) := Rewrite(p);
    var again := "/" + prefix + path;
    RewriteSplitsPath(p);
    RewrittenIsRooted(p);
    SegmentsOfRebuilt(prefix, path);
    CheckedIsClean(again);
    CheckedIsClean(p);
    if path != "/" {
      TrailingSlashKept(p);
      assert again[|again| - 1] == path[|path| - 1];
    } else {
      CutIgnoresSlash(Segments(p), EndsWithSlash(p), EndsWithSlash(again));
    }
  }

  lemma RewrittenIsRooted(p: string)
    requires Rewrite(p).Rewritten?
    ensures Rewrite(p).path != "" && Rewrite(p).path[0] == '/'
  {
  }

  /** Without an API segment the trailing slash is lost. */
  lemma CutIgnoresSlash(segs: seq<string>, slash: bool, slash': bool)
    requires Clean(segs) && Cut(segs, slash).path == "/"
    ensures Cut(segs, slash) == Cut(segs, slash')
  {
    if FirstKnown(segs) < |segs| {
      CutPath(segs, slash);
    }
  }
}
