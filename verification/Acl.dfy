/**
 Access rules (internal/acl/acl.go): string matching of rule paths, the single pass that keeps the
 permissions of the deepest matches, and the fold that turns them into one permission.
 */
module Acl {
  import opened Prelude
  import opened Text
  import opened RepoPrefix

  datatype Permission = Deny | ReadOnly | AppendOnly | FullAccess {
    function Rank(): nat {
      match this
      case Deny => 0
      case ReadOnly => 1
      case AppendOnly => 2
      case FullAccess => 3
    }
  }

  datatype Operation = OpRead | OpWrite | OpDelete

  datatype Rule = Rule(paths: seq<string>, identities: seq<string>, permission: Permission)

  // ----- Paths as strings

  /** strings.TrimRight(p, "/"). */
  function TrimRight(p: string): (r: string)
    ensures r <= p && !EndsWithSlash(r)
    ensures forall i :: |r| <= i < |p| ==> p[i] == '/'
  {
    if EndsWithSlash(p) then TrimRight(p[..|p| - 1]) else p
  }

  /** strings.TrimLeft(p, "/"). */
  function TrimLeft(p: string): string {
    if p != "" && p[0] == '/' then TrimLeft(p[1..]) else p
  }

  /** strings.Count(p, "/"). */
  function CountSlashes(p: string): nat {
    if p == "" then 0 else (if p[0] == '/' then 1 else 0) + CountSlashes(p[1..])
  }

  function NormalizePath(p: string): string {
    if p == "" || p == "/" then "/"
    else TrimRight(if HasPrefix(p, "/") then p else "/" + p)
  }

  function SegmentCount(p: string): nat {
    var t := TrimRight(TrimLeft(p));
    if t == "" then 0 else CountSlashes(t) + 1
  }

  /** The depth of the rule path when it matches. */
  function MatchPath(rulePath: string, reqPath: string): Option<nat> {
    if rulePath == "/" then Some(0)
    else if reqPath == rulePath then Some(SegmentCount(rulePath))
    else if HasPrefix(reqPath, rulePath + "/") then Some(SegmentCount(rulePath))
    else None
  }

  // ----- Paths as segments

  /** The segments a rule path asks for. An all-slash path asks for none, like "/"; a path with an
      empty segment inside asks for one that no request has. */
  function RuleSegments(rulePath: string): seq<string> {
    var n := NormalizePath(rulePath);
    if |n| <= 1 then [] else Split(n[1..])
  }

  /** The path of a request: the middleware puts "/" before the repository prefix. */
  function RequestPath(segs: seq<string>): string {
    "/" + Join(segs)
  }

  lemma {:induction false} CountIsSplit(p: string)
    ensures CountSlashes(p) + 1 == |Split(p)|
  {
    if p != "" {
      CountIsSplit(p[1..]);
    }
  }

  lemma NormalizeShape(p: string)
    ensures var n := NormalizePath(p);
      n == "/" || n == "" || (|n| >= 2 && n[0] == '/' && !EndsWithSlash(n[1..]))
  {
    if p != "" && p != "/" {
      var q := if HasPrefix(p, "/") then p else "/" + p;
      var n := TrimRight(q);
      assert q[0] == '/';
      if |n| >= 1 {
        assert n[0] == q[0];
        assert |n| >= 2;
        assert n[|n| - 1] == n[1..][|n| - 2];
      }
    }
  }

  lemma RequestPathIsNormal(segs: seq<string>)
    requires Clean(segs)
    ensures NormalizePath(RequestPath(segs)) == RequestPath(segs)
  {
    CleanJoinEnds(segs);
    if segs != [] {
      var r := RequestPath(segs);
      assert r[|r| - 1] == Join(segs)[|Join(segs)| - 1];
    }
  }

  lemma SegmentCountOfClean(segs: seq<string>)
    requires Clean(segs) && segs != []
    ensures SegmentCount("/" + Join(segs)) == |segs|
  {
    var m := Join(segs);
    CleanJoinEnds(segs);
    assert ("/" + m)[1..] == m;
    assert TrimLeft(m) == m;
    assert TrimLeft("/" + m) == m;
    CountIsSplit(m);
    SplitOfJoin(segs);
  }

  /** The string test of matchPath is the segment-prefix test, and the depth it reports is the
      number of segments, for every rule path as New stores it and every request path. */
  lemma MatchIsSegmentPrefix(rulePath: string, segs: seq<string>)
    requires Clean(segs)
    ensures MatchPath(NormalizePath(rulePath), RequestPath(segs))
         == if RuleSegments(rulePath) <= segs then Some(|RuleSegments(rulePath)|) else None
  {
    var n, req := NormalizePath(rulePath), RequestPath(segs);
    NormalizeShape(rulePath);
    if |n| <= 1 {
      assert HasPrefix(req, "" + "/");
    } else {
      var m := n[1..];
      assert n == "/" + m;
      JoinOfSplit(m);
      if Split(m) <= segs {
        MatchOfSegmentPrefix(Split(m), segs);
        var k := |Split(m)|;
        assert segs[..k] == Split(m);
        SegmentCountOfClean(segs[..k]);
      } else if MatchPath(n, req).Some? {
        SegmentPrefixOfMatch(m, segs);
        assert false;
      }
    }
  }

  lemma MatchOfSegmentPrefix(head: seq<string>, segs: seq<string>)
    requires head != [] && head <= segs
    ensures Join(segs) == Join(head) || HasPrefix(RequestPath(segs), "/" + Join(head) + "/")
  {
    var rest := segs[|head|..];
    assert segs == head + rest;
    if rest != [] {
      JoinAppend(head, rest);
      assert RequestPath(segs) == "/" + Join(head) + "/" + Join(rest);
    } else {
      assert segs == head;
    }
  }

  lemma PrefixWithoutSlash(m: string, joined: string)
    requires "/" + joined == "/" + m || HasPrefix("/" + joined, "/" + m + "/")
    ensures joined == m || (|joined| > |m| && joined == m + "/" + joined[|m| + 1..])
  {
    assert ("/" + joined)[1..] == joined && ("/" + m)[1..] == m;
    if "/" + joined != "/" + m {
      assert joined[..|m| + 1] == ("/" + joined)[..|m| + 2][1..];
    }
  }

  lemma SegmentPrefixOfMatch(m: string, segs: seq<string>)
    requires Clean(segs) && m != ""
    requires RequestPath(segs) == "/" + m || HasPrefix(RequestPath(segs), "/" + m + "/")
    ensures Split(m) <= segs
  {
    var req := RequestPath(segs);
    assert req == "/" + Join(segs);
    assert Join(segs) != "" by { assert |req| >= 2; }
    SplitOfJoin(segs);
    hide *;
    PrefixWithoutSlash(m, Join(segs));
    if Join(segs) != m {
      var rest := Join(segs)[|m| + 1..];
      SplitAtSlash(m, rest);
    }
  }

  lemma {:induction false} TrimTail(p: string, tail: string)
    requires !EndsWithSlash(p) && forall i :: 0 <= i < |tail| ==> tail[i] == '/'
    ensures TrimRight(p + tail) == p
  {
    if tail == "" {
      assert p + tail == p;
    } else {
      var n := |tail| - 1;
      assert (p + tail)[..|p + tail| - 1] == p + tail[..n];
      TrimTail(p, tail[..n]);
    }
  }

  lemma NormalizeSlashes(all: string)
    requires forall i :: 0 <= i < |all| ==> all[i] == '/'
    ensures |NormalizePath(all)| <= 1
  {
    hide TrimRight;
    TrimTail("", all);
    assert "" + all == all;
    if all != "" {
      assert HasPrefix(all, "/");
    }
  }

  lemma NormalizeWritten(rulePath: string, body: string, lead: bool, tail: string)
    requires rulePath == (if lead then "/" else "") + body + tail
    requires body != "" && body[0] != '/' && !EndsWithSlash(body)
    requires forall i :: 0 <= i < |tail| ==> tail[i] == '/'
    ensures NormalizePath(rulePath) == "/" + body
  {
    var p := "/" + body;
    assert p[|p| - 1] == body[|body| - 1];
    TrimTail(p, tail);
    hide TrimRight;
    if lead {
      assert rulePath == p + tail;
    } else {
      assert rulePath == body + tail && rulePath[0] == body[0];
      assert "/" + rulePath == p + tail;
    }
  }

  /** A rule path asks for the segments it is written with, whether it begins with a slash or not and
      whatever slashes it ends in. */
  lemma RuleSegmentsAsWritten(rulePath: string, lead: bool, segs: seq<string>, tail: string)
    requires rulePath == (if lead then "/" else "") + Join(segs) + tail && Clean(segs)
    requires forall i :: 0 <= i < |tail| ==> tail[i] == '/'
    ensures RuleSegments(rulePath) == segs
  {
    CleanJoinEnds(segs);
    hide NormalizePath, CleanSegment;
    if segs == [] {
      NormalizeSlashes(rulePath);
    } else {
      NormalizeWritten(rulePath, Join(segs), lead, tail);
      assert ("/" + Join(segs))[1..] == Join(segs);
      CleanFacts(segs);
      SplitOfJoin(segs);
    }
  }

  /** Two rule paths that match one request at one depth are the same path. */
  lemma SameDepthSamePath(a: string, b: string, segs: seq<string>)
    requires Clean(segs)
    requires MatchPath(NormalizePath(a), RequestPath(segs)).Some?
    requires MatchPath(NormalizePath(a), RequestPath(segs)) == MatchPath(NormalizePath(b), RequestPath(segs))
    ensures RuleSegments(a) == RuleSegments(b)
    ensures NormalizePath(a) == NormalizePath(b) || RuleSegments(a) == []
  {
    MatchIsSegmentPrefix(a, segs);
    MatchIsSegmentPrefix(b, segs);
    var n := |RuleSegments(a)|;
    assert RuleSegments(a) == segs[..n] == RuleSegments(b);
    if n > 0 {
      PathOfSegments(a);
      PathOfSegments(b);
    }
  }

  lemma PathOfSegments(rulePath: string)
    requires RuleSegments(rulePath) != []
    ensures NormalizePath(rulePath) == "/" + Join(RuleSegments(rulePath))
  {
    var n := NormalizePath(rulePath);
    NormalizeShape(rulePath);
    JoinOfSplit(n[1..]);
    assert n == "/" + n[1..];
  }

  // ----- Identities

  /** The rule names everybody or one of the identities of the request. */
  predicate IdentityMatches(rule: seq<string>, request: seq<string>) {
    "*" in rule || exists id :: id in rule && id in request
  }

  method MatchIdentity(ruleIdentities: seq<string>, requestIdentities: seq<string>) returns (ok: bool)
    ensures ok == IdentityMatches(ruleIdentities, requestIdentities)
  {
    for i := 0 to |ruleIdentities|
      invariant forall k :: 0 <= k < i ==> ruleIdentities[k] != "*" && ruleIdentities[k] !in requestIdentities
    {
      var ri := ruleIdentities[i];
      if ri == "*" {
        return true;
      }
      for j := 0 to |requestIdentities|
        invariant forall k :: 0 <= k < j ==> requestIdentities[k] != ri
      {
        if ri == requestIdentities[j] {
          assert ri in ruleIdentities && ri in requestIdentities;
          return true;
        }
      }
    }
    return false;
  }

  // ----- The matches of a request

  /** A (rule, path) pair that matches: its depth and the rule's permission. */
  datatype Match = Match(depth: nat, permission: Permission)

  function PathMatch(path: string, permission: Permission, req: string): seq<Match> {
    var depth := MatchPath(path, req);
    if depth.Some? then [Match(depth.value, permission)] else []
  }

  function PathMatches(paths: seq<string>, permission: Permission, req: string): seq<Match> {
    if paths == [] then []
    else
      var n := |paths| - 1;
      PathMatches(paths[..n], permission, req) + PathMatch(paths[n], permission, req)
  }

  function RuleMatches(rule: Rule, identities: seq<string>, req: string): seq<Match> {
    if IdentityMatches(rule.identities, identities) then PathMatches(rule.paths, rule.permission, req) else []
  }

  /** All matches, in the order of rules and of paths within a rule. */
  function Matches(rules: seq<Rule>, identities: seq<string>, req: string): seq<Match> {
    if rules == [] then []
    else Matches(rules[..|rules| - 1], identities, req) + RuleMatches(rules[|rules| - 1], identities, req)
  }

  /** The greatest depth, or -1. */
  function BestDepth(ms: seq<Match>): int {
    if ms == [] then -1
    else
      var rest, last := ms[..|ms| - 1], ms[|ms| - 1];
      if last.depth > BestDepth(rest) then last.depth else BestDepth(rest)
  }

  lemma {:induction false} BestDepthIsGreatest(ms: seq<Match>)
    ensures forall m :: m in ms ==> m.depth <= BestDepth(ms)
    ensures if ms == [] then BestDepth(ms) == -1 else exists m :: m in ms && m.depth == BestDepth(ms)
  {
    if ms != [] {
      var rest, last := ms[..|ms| - 1], ms[|ms| - 1];
      BestDepthIsGreatest(rest);
      var best := BestDepth(ms);
      forall m | m in ms ensures m.depth <= best {
        assert ms == rest + [last];
        assert m in rest || m == last;
      }
      if last.depth > BestDepth(rest) {
        assert last in ms && last.depth == best;
      } else {
        var m :| m in rest && m.depth == BestDepth(rest);
        assert m in ms && m.depth == best;
      }
    }
  }

  /** The permissions of the matches at one depth, in order. */
  function PermissionsAt(ms: seq<Match>, depth: int): seq<Permission> {
    if ms == [] then []
    else
      var rest, last := ms[..|ms| - 1], ms[|ms| - 1];
      PermissionsAt(rest, depth) + (if last.depth == depth then [last.permission] else [])
  }

  lemma {:induction false} PermissionsAtMembers(ms: seq<Match>, depth: int)
    ensures forall p :: p in PermissionsAt(ms, depth) <==> exists m :: m in ms && m.depth == depth && m.permission == p
  {
    if ms != [] {
      var rest, last := ms[..|ms| - 1], ms[|ms| - 1];
      assert ms == rest + [last];
      PermissionsAtMembers(rest, depth);
    }
  }

  function Kept(ms: seq<Match>): (ps: seq<Permission>)
    ensures ms != [] ==> ps != []
  {
    var ps := PermissionsAt(ms, BestDepth(ms));
    assert ms != [] ==> ps != [] by {
      BestDepthIsGreatest(ms);
      PermissionsAtMembers(ms, BestDepth(ms));
      if ms != [] {
        var m :| m in ms && m.depth == BestDepth(ms);
        assert m.permission in ps;
      }
    }
    ps
  }

  /** The fold over the kept permissions after the first one. */
  function Fold(highest: Permission, rest: seq<Permission>): Permission
    decreases rest
  {
    if rest == [] then highest
    else if rest[0] == Deny then Deny
    else Fold(if rest[0].Rank() > highest.Rank() then rest[0] else highest, rest[1..])
  }

  function Decide(defaultPerm: Permission, ms: seq<Match>): Permission {
    if ms == [] then defaultPerm else Fold(Kept(ms)[0], Kept(ms)[1..])
  }

  /** The permission that Resolve computes. */
  function Effective(e: Engine, identities: seq<string>, path: string): Permission {
    Decide(e.defaultPerm, Matches(e.rules, identities, NormalizePath(path)))
  }

  lemma MatchesSnoc(rules: seq<Rule>, k: nat, identities: seq<string>, req: string)
    requires k < |rules|
    ensures Matches(rules[..k + 1], identities, req)
         == Matches(rules[..k], identities, req) + RuleMatches(rules[k], identities, req)
  {
    assert rules[..k + 1][..k] == rules[..k];
  }

  lemma PathMatchesSnoc(paths: seq<string>, k: nat, permission: Permission, req: string)
    requires k < |paths|
    ensures PathMatches(paths[..k + 1], permission, req)
         == PathMatches(paths[..k], permission, req) + PathMatch(paths[k], permission, req)
  {
    assert paths[..k + 1][..k] == paths[..k];
  }

  /** One more match, in the three ways the loop treats it. */
  lemma KeptSnoc(ms: seq<Match>, m: Match)
    ensures BestDepth(ms + [m]) == if m.depth > BestDepth(ms) then m.depth else BestDepth(ms)
    ensures Kept(ms + [m])
         == if m.depth > BestDepth(ms) then [m.permission]
            else if m.depth == BestDepth(ms) then Kept(ms) + [m.permission]
            else Kept(ms)
  {
    var all := ms + [m];
    assert all[..|all| - 1] == ms && all[|all| - 1] == m;
    if m.depth > BestDepth(ms) {
      BestDepthIsGreatest(ms);
      NothingAt(ms, m.depth);
    }
  }

  lemma NothingAt(ms: seq<Match>, depth: int)
    requires forall m :: m in ms ==> m.depth != depth
    ensures PermissionsAt(ms, depth) == []
  {
    PermissionsAtMembers(ms, depth);
    HeadIsMember(PermissionsAt(ms, depth));
  }

  datatype Engine = Engine(defaultPerm: Permission, rules: seq<Rule>) {

    method Resolve(identities: seq<string>, repoPath: string) returns (p: Permission)
      ensures p == Effective(this, identities, repoPath)
    {
      var req := NormalizePath(repoPath);
      var bestDepth: int := -1;
      var permsAtBest: seq<Permission> := [];
      ghost var seen: seq<Match> := [];
      for i := 0 to |rules|
        invariant seen == Matches(rules[..i], identities, req)
        invariant bestDepth == BestDepth(seen) && permsAtBest == Kept(seen)
      {
        MatchesSnoc(rules, i, identities, req);
        var rule := rules[i];
        var applies := MatchIdentity(rule.identities, identities);
        if !applies {
          continue;
        }
        ghost var before := seen;
        for j := 0 to |rule.paths|
          invariant seen == before + PathMatches(rule.paths[..j], rule.permission, req)
          invariant bestDepth == BestDepth(seen) && permsAtBest == Kept(seen)
        {
          PathMatchesSnoc(rule.paths, j, rule.permission, req);
          ghost var upTo := PathMatches(rule.paths[..j], rule.permission, req);
          ghost var found := PathMatch(rule.paths[j], rule.permission, req);
          AppendAssoc(before, upTo, found);
          var depth := MatchPath(rule.paths[j], req);
          if depth.None? {
            assert seen + found == seen;
            continue;
          }
          KeptSnoc(seen, Match(depth.value, rule.permission));
          seen := seen + found;
          if depth.value > bestDepth {
            bestDepth := depth.value;
            permsAtBest := [rule.permission];
          } else if depth.value == bestDepth {
            permsAtBest := permsAtBest + [rule.permission];
          }
        }
        assert rule.paths[..|rule.paths|] == rule.paths;
      }
      assert rules[..|rules|] == rules;
      if bestDepth < 0 {
        return defaultPerm;
      }
      p := DenyOrHighest(permsAtBest);
    }

    /** Deny is absolute among the entries after the first; otherwise the highest. */
    static method DenyOrHighest(permsAtBest: seq<Permission>) returns (p: Permission)
      requires permsAtBest != []
      ensures p == Fold(permsAtBest[0], permsAtBest[1..])
    {
      var highest := permsAtBest[0];
      for i := 1 to |permsAtBest|
        invariant Fold(highest, permsAtBest[i..]) == Fold(permsAtBest[0], permsAtBest[1..])
      {
        var q := permsAtBest[i];
        assert permsAtBest[i..][1..] == permsAtBest[i + 1..];
        if q == Deny {
          return Deny;
        }
        if q.Rank() > highest.Rank() {
          highest := q;
        }
      }
      if highest == Deny {
        return Deny;
      }
      return highest;
    }

    method Allowed(identities: seq<string>, repoPath: string, op: Operation) returns (ok: bool)
      ensures ok == Allows(Effective(this, identities, repoPath), op)
    {
      var perm := Resolve(identities, repoPath);
      match op
      case OpRead => ok := perm.Rank() >= ReadOnly.Rank();
      case OpWrite => ok := perm.Rank() >= AppendOnly.Rank();
      case OpDelete => ok := perm.Rank() >= FullAccess.Rank();
    }
  }

  /** The permissions under which an operation goes ahead. */
  predicate Allows(p: Permission, op: Operation) {
    match op
    case OpRead => p != Deny
    case OpWrite => p == AppendOnly || p == FullAccess
    case OpDelete => p == FullAccess
  }

  // ----- What the fold computes

  /** The highest of some permissions. */
  predicate IsHighest(p: Permission, ps: seq<Permission>) {
    p in ps && forall q :: q in ps ==> q.Rank() <= p.Rank()
  }

  lemma {:induction false} FoldExact(highest: Permission, rest: seq<Permission>)
    ensures Deny in rest ==> Fold(highest, rest) == Deny
    ensures Deny !in rest ==> IsHighest(Fold(highest, rest), [highest] + rest)
    decreases rest
  {
    if rest != [] && rest[0] != Deny {
      var next := if rest[0].Rank() > highest.Rank() then rest[0] else highest;
      FoldExact(next, rest[1..]);
      assert rest == [rest[0]] + rest[1..];
    }
  }

  /** The documented rule at the deepest level: any Deny decides, otherwise the highest wins. */
  ghost predicate Documented(p: Permission, kept: seq<Permission>) {
    if Deny in kept then p == Deny else IsHighest(p, kept)
  }

  /** A Deny in front, something after it, and no Deny after it. */
  predicate LoneLeadingDeny(kept: seq<Permission>) {
    |kept| >= 2 && kept[0] == Deny && Deny !in kept[1..]
  }

  /** The code meets the documented rule exactly when the kept permissions do not start with their
      only Deny: the fold tests for Deny from the second entry on. */
  lemma FoldMeetsDocumentation(kept: seq<Permission>)
    requires kept != []
    ensures Documented(Fold(kept[0], kept[1..]), kept) <==> !LoneLeadingDeny(kept)
    ensures LoneLeadingDeny(kept) ==> IsHighest(Fold(kept[0], kept[1..]), kept) && Fold(kept[0], kept[1..]) != Deny
  {
    FoldExact(kept[0], kept[1..]);
    assert kept == [kept[0]] + kept[1..];
    if LoneLeadingDeny(kept) {
      assert kept[1] in kept[1..];
      assert kept[1] in kept;
    }
  }

  /** The same fold, started below the entries so that it also covers the first one, is the
      documented rule. */
  lemma CoveringFoldIsDocumented(kept: seq<Permission>)
    requires kept != []
    ensures Documented(Fold(ReadOnly, kept), kept)
  {
    FoldExact(ReadOnly, kept);
    if Deny !in kept {
      assert kept[0] in kept && kept[0].Rank() >= ReadOnly.Rank();
      assert forall q :: q in kept ==> q in [ReadOnly] + kept;
    }
  }

  /** The rule files for which Resolve departs from its documentation do exist: a deny rule listed
      before a full-access rule for the same path is overruled by it. */
  lemma LeadingDenyIsOverruled(identities: seq<string>, segs: seq<string>)
    requires Clean(segs)
    ensures var deny, full := Rule(["/"], ["*"], Deny), Rule(["/"], ["*"], FullAccess);
      && Effective(Engine(Deny, [deny, full]), identities, RequestPath(segs)) == FullAccess
      && Effective(Engine(Deny, [full, deny]), identities, RequestPath(segs)) == Deny
  {
    var deny, full := Rule(["/"], ["*"], Deny), Rule(["/"], ["*"], FullAccess);
    RequestPathIsNormal(segs);
    var req := RequestPath(segs);
    RootRuleMatches(deny, identities, req);
    RootRuleMatches(full, identities, req);
    TwoRules(deny, full, identities, req);
    TwoRules(full, deny, identities, req);
    DecidePair(Match(0, Deny), Match(0, FullAccess));
  }

  lemma DecidePair(d: Match, f: Match)
    requires d.depth == f.depth && d.permission == Deny && f.permission == FullAccess
    ensures Decide(Deny, [d] + [f]) == FullAccess && Decide(Deny, [f] + [d]) == Deny
  {
    KeptOfPair(d, f);
    KeptOfPair(f, d);
    assert [d] + [f] == [d, f] && [f] + [d] == [f, d];
    assert [Deny, FullAccess][1..] == [FullAccess] && [FullAccess, Deny][1..] == [Deny];
    FoldMeetsDocumentation([Deny, FullAccess]);
  }

  lemma KeptOfPair(a: Match, b: Match)
    requires a.depth == b.depth
    ensures Kept([a, b]) == [a.permission, b.permission]
  {
    assert [] + [a] == [a] && [a] + [b] == [a, b];
    KeptSnoc([], a);
    KeptSnoc([a], b);
  }

  lemma RootRuleMatches(rule: Rule, identities: seq<string>, req: string)
    requires rule.paths == ["/"] && rule.identities == ["*"]
    ensures RuleMatches(rule, identities, req) == [Match(0, rule.permission)]
  {
    assert ["/"][..0] == [];
    PathMatchesSnoc(["/"], 0, rule.permission, req);
    assert ["/"][..1] == ["/"];
    assert "*" in ["*"];
  }

  lemma TwoRules(a: Rule, b: Rule, identities: seq<string>, req: string)
    ensures Matches([a, b], identities, req) == RuleMatches(a, identities, req) + RuleMatches(b, identities, req)
  {
    assert [a, b][..0] == [] && [a, b][..1] == [a] && [a, b][..2] == [a, b];
    MatchesSnoc([a, b], 0, identities, req);
    MatchesSnoc([a, b], 1, identities, req);
  }

  // ----- Order of rules and of paths

  lemma {:induction false} PermissionCount(ms: seq<Match>, depth: nat, p: Permission)
    ensures multiset(PermissionsAt(ms, depth))[p] == multiset(ms)[Match(depth, p)]
  {
    if ms != [] {
      var rest, last := ms[..|ms| - 1], ms[|ms| - 1];
      assert ms == rest + [last];
      PermissionCount(rest, depth, p);
    }
  }

  /** Best depth and kept permissions depend only on which matches there are, not on their order. */
  lemma KeptOfPermutation(a: seq<Match>, b: seq<Match>)
    requires multiset(a) == multiset(b)
    ensures BestDepth(a) == BestDepth(b)
    ensures multiset(Kept(a)) == multiset(Kept(b))
  {
    assert forall m :: m in a <==> m in multiset(a);
    assert forall m :: m in b <==> m in multiset(b);
    BestDepthIsGreatest(a);
    BestDepthIsGreatest(b);
    if a == [] {
      assert |b| == |multiset(b)| == |multiset(a)|;
    } else {
      assert a[0] in b;
      var d := BestDepth(a);
      forall p: Permission
        ensures multiset(Kept(a))[p] == multiset(Kept(b))[p]
      {
        PermissionCount(a, d, p);
        PermissionCount(b, d, p);
      }
    }
  }

  lemma {:induction false} MatchesAppend(a: seq<Rule>, b: seq<Rule>, identities: seq<string>, req: string)
    ensures Matches(a + b, identities, req) == Matches(a, identities, req) + Matches(b, identities, req)
  {
    if b == [] {
      assert a + b == a;
    } else {
      var n := |b| - 1;
      assert (a + b)[..|a + b| - 1] == a + b[..n];
      MatchesAppend(a, b[..n], identities, req);
      hide RuleMatches;
      AppendAssoc(Matches(a, identities, req), Matches(b[..n], identities, req), RuleMatches(b[n], identities, req));
    }
  }

  lemma {:induction false} PathMatchesAppend(a: seq<string>, b: seq<string>, permission: Permission, req: string)
    ensures PathMatches(a + b, permission, req) == PathMatches(a, permission, req) + PathMatches(b, permission, req)
  {
    if b == [] {
      assert a + b == a;
    } else {
      var n := |b| - 1;
      assert (a + b)[..|a + b| - 1] == a + b[..n];
      PathMatchesAppend(a, b[..n], permission, req);
      hide PathMatch;
      AppendAssoc(PathMatches(a, permission, req), PathMatches(b[..n], permission, req),
        PathMatch(b[n], permission, req));
    }
  }

  lemma {:induction false} PathOrderIrrelevant(a: seq<string>, b: seq<string>, permission: Permission, req: string)
    requires multiset(a) == multiset(b)
    ensures multiset(PathMatches(a, permission, req)) == multiset(PathMatches(b, permission, req))
  {
    if a == [] {
      assert |b| == |multiset(b)| == |multiset(a)|;
    } else {
      var n := |a| - 1;
      var x := a[n];
      assert a == a[..n] + [x];
      assert x in multiset(b);
      var k :| 0 <= k < |b| && b[k] == x;
      assert b == b[..k] + [x] + b[k + 1..];
      RemoveOne(a, b, k);
      PathOrderIrrelevant(a[..n], b[..k] + b[k + 1..], permission, req);
      PathMatchesAppend(a[..n], [x], permission, req);
      PathMatchesAppend(b[..k] + [x], b[k + 1..], permission, req);
      PathMatchesAppend(b[..k], [x], permission, req);
      PathMatchesAppend(b[..k], b[k + 1..], permission, req);
    }
  }

  /** The same rule with its paths in another order. */
  ghost predicate SamePaths(a: Rule, b: Rule) {
    a.identities == b.identities && a.permission == b.permission && multiset(a.paths) == multiset(b.paths)
  }

  lemma {:induction false} PathsPermuted(a: seq<Rule>, b: seq<Rule>, identities: seq<string>, req: string)
    requires |a| == |b| && forall i :: 0 <= i < |a| ==> SamePaths(a[i], b[i])
    ensures multiset(Matches(a, identities, req)) == multiset(Matches(b, identities, req))
  {
    if a != [] {
      var n := |a| - 1;
      PathsPermuted(a[..n], b[..n], identities, req);
      assert SamePaths(a[n], b[n]);
      PathOrderIrrelevant(a[n].paths, b[n].paths, a[n].permission, req);
    }
  }

  lemma {:induction false} RulesPermuted(a: seq<Rule>, b: seq<Rule>, identities: seq<string>, req: string)
    requires multiset(a) == multiset(b)
    ensures multiset(Matches(a, identities, req)) == multiset(Matches(b, identities, req))
  {
    if a == [] {
      assert |b| == |multiset(b)| == |multiset(a)|;
    } else {
      var n := |a| - 1;
      var x := a[n];
      assert a == a[..n] + [x];
      assert x in multiset(b);
      var k :| 0 <= k < |b| && b[k] == x;
      assert b == b[..k] + [x] + b[k + 1..];
      RemoveOne(a, b, k);
      RulesPermuted(a[..n], b[..k] + b[k + 1..], identities, req);
      MatchesAppend(a[..n], [x], identities, req);
      MatchesAppend(b[..k] + [x], b[k + 1..], identities, req);
      MatchesAppend(b[..k], [x], identities, req);
      MatchesAppend(b[..k], b[k + 1..], identities, req);
    }
  }

  /** Permuting the rules (to `mid`) and the paths within each rule (to `b`) keeps the best depth
      and the multiset of kept permissions. It keeps the answer too, unless in one of the two orders
      the only kept Deny comes first. */
  lemma OrderIrrelevant(a: seq<Rule>, mid: seq<Rule>, b: seq<Rule>, defaultPerm: Permission,
                        identities: seq<string>, path: string)
    requires multiset(a) == multiset(mid)
    requires |mid| == |b| && forall i :: 0 <= i < |b| ==> SamePaths(mid[i], b[i])
    ensures var ma := Matches(a, identities, NormalizePath(path));
            var mb := Matches(b, identities, NormalizePath(path));
      && BestDepth(ma) == BestDepth(mb)
      && multiset(Kept(ma)) == multiset(Kept(mb))
      && (LoneLeadingDeny(Kept(ma)) == LoneLeadingDeny(Kept(mb)) <==>
          Effective(Engine(defaultPerm, a), identities, path) == Effective(Engine(defaultPerm, b), identities, path))
  {
    var req := NormalizePath(path);
    var ma, mb := Matches(a, identities, req), Matches(b, identities, req);
    RulesPermuted(a, mid, identities, req);
    PathsPermuted(mid, b, identities, req);
    DecideOfPermutation(defaultPerm, ma, mb);
  }

  lemma DecideOfPermutation(defaultPerm: Permission, ma: seq<Match>, mb: seq<Match>)
    requires multiset(ma) == multiset(mb)
    ensures BestDepth(ma) == BestDepth(mb)
    ensures multiset(Kept(ma)) == multiset(Kept(mb))
    ensures LoneLeadingDeny(Kept(ma)) == LoneLeadingDeny(Kept(mb))
        <==> Decide(defaultPerm, ma) == Decide(defaultPerm, mb)
  {
    KeptOfPermutation(ma, mb);
    if ma != [] {
      var ka, kb := Kept(ma), Kept(mb);
      FoldMeetsDocumentation(ka);
      FoldMeetsDocumentation(kb);
      assert forall p :: p in ka <==> p in multiset(ka);
      assert forall p :: p in kb <==> p in multiset(kb);
      assert Deny in ka <==> Deny in kb;
    } else {
      assert BestDepth(mb) == -1;
    }
  }

  lemma {:induction false} PermissionsAtAppend(a: seq<Match>, b: seq<Match>, depth: int)
    ensures PermissionsAt(a + b, depth) == PermissionsAt(a, depth) + PermissionsAt(b, depth)
  {
    if b == [] {
      assert a + b == a;
    } else {
      var n := |b| - 1;
      assert (a + b)[..|a + b| - 1] == a + b[..n];
      PermissionsAtAppend(a, b[..n], depth);
    }
  }

  /** A rule whose matches are all shallower than the deepest one never changes the answer,
      wherever it is inserted. */
  lemma ShallowRuleIrrelevant(a: seq<Rule>, rule: Rule, b: seq<Rule>, defaultPerm: Permission,
                              identities: seq<string>, path: string)
    requires forall m :: m in RuleMatches(rule, identities, NormalizePath(path)) ==>
               m.depth < BestDepth(Matches(a + b, identities, NormalizePath(path)))
    ensures Effective(Engine(defaultPerm, a + [rule] + b), identities, path)
         == Effective(Engine(defaultPerm, a + b), identities, path)
  {
    var req := NormalizePath(path);
    var ma, mb, mr := Matches(a, identities, req), Matches(b, identities, req), RuleMatches(rule, identities, req);
    MatchesAppend(a, b, identities, req);
    MatchesAppend(a + [rule], b, identities, req);
    MatchesAppend(a, [rule], identities, req);
    assert Matches([rule], identities, req) == mr by { assert [rule][..0] == []; }
    ShallowMatchesIrrelevant(ma, mr, mb);
  }

  lemma ShallowMatchesIrrelevant(ma: seq<Match>, mr: seq<Match>, mb: seq<Match>)
    requires forall m :: m in mr ==> m.depth < BestDepth(ma + mb)
    ensures ma + mr + mb == [] <==> ma + mb == []
    ensures Kept(ma + mr + mb) == Kept(ma + mb)
  {
    hide BestDepth, PermissionsAt;
    var without, with := ma + mb, ma + mr + mb;
    var d := BestDepth(without);
    BestDepthIsGreatest(without);
    BestDepthIsGreatest(with);
    if without == [] {
      HeadIsMember(mr);
    } else {
      var top :| top in without && top.depth == d;
      assert top in with;
      PermissionsAtAppend(ma, mb, d);
      PermissionsAtAppend(ma + mr, mb, d);
      PermissionsAtAppend(ma, mr, d);
      NothingAt(mr, d);
    }
  }

  // ----- The engine that New builds

  function NormalizedPaths(paths: seq<string>): seq<string> {
    seq(|paths|, i requires 0 <= i < |paths| => NormalizePath(paths[i]))
  }

  function Normalized(rule: Rule): Rule {
    rule.(paths := NormalizedPaths(rule.paths))
  }

  predicate Complete(rule: Rule) {
    rule.paths != [] && rule.identities != []
  }

  /** The engine for rules as they are written. */
  function Built(defaultPerm: Permission, written: seq<Rule>): Engine {
    Engine(defaultPerm, seq(|written|, i requires 0 <= i < |written| => Normalized(written[i])))
  }

  datatype RuleError = NoPaths(index: nat) | NoIdentities(index: nat)

  /** Normalizes the rules in place; the first incomplete rule stops it, with the rules before it
      already normalized and the others as they were. */
  method New(defaultPerm: Permission, rules: array<Rule>) returns (r: Result<Engine, RuleError>)
    modifies rules
    ensures r.Ok? <==> forall i :: 0 <= i < rules.Length ==> Complete(old(rules[i]))
    ensures r.Ok? ==> r.value == Engine(defaultPerm, rules[..]) == Built(defaultPerm, old(rules[..]))
    ensures r.Err? ==> r.error.index < rules.Length && !Complete(old(rules[r.error.index]))
    ensures r.Err? ==> (r.error.NoPaths? <==> old(rules[r.error.index]).paths == [])
    ensures var stop := if r.Ok? then rules.Length else r.error.index;
      forall i :: 0 <= i < rules.Length ==>
        rules[i] == (if i < stop then Normalized(old(rules[i])) else old(rules[i]))
            && (i < stop ==> Complete(old(rules[i])))
  {
    for i := 0 to rules.Length
      invariant forall k :: 0 <= k < i ==> rules[k] == Normalized(old(rules[k])) && Complete(old(rules[k]))
      invariant forall k :: i <= k < rules.Length ==> rules[k] == old(rules[k])
    {
      if |rules[i].paths| == 0 {
        return Err(NoPaths(i));
      }
      if |rules[i].identities| == 0 {
        return Err(NoIdentities(i));
      }
      ghost var was := rules[i];
      for j := 0 to |rules[i].paths|
        invariant forall k :: 0 <= k < rules.Length && k != i ==>
                    rules[k] == if k < i then Normalized(old(rules[k])) else old(rules[k])
        invariant |rules[i].paths| == |was.paths| && rules[i] == was.(paths := rules[i].paths)
        invariant forall k :: 0 <= k < |was.paths| ==>
                    rules[i].paths[k] == if k < j then NormalizePath(was.paths[k]) else was.paths[k]
      {
        rules[i] := rules[i].(paths := rules[i].paths[j := NormalizePath(rules[i].paths[j])]);
      }
      assert rules[i].paths == NormalizedPaths(was.paths);
    }
    return Ok(Engine(defaultPerm, rules[..]));
  }

  lemma {:induction false} PathMatchesMeaning(paths: seq<string>, permission: Permission, segs: seq<string>, m: Match)
    requires Clean(segs)
    ensures m in PathMatches(NormalizedPaths(paths), permission, RequestPath(segs)) <==>
      m.permission == permission && exists p :: p in paths && RuleSegments(p) <= segs && |RuleSegments(p)| == m.depth
  {
    if paths != [] {
      var n := |paths| - 1;
      assert NormalizedPaths(paths)[..n] == NormalizedPaths(paths[..n]);
      assert paths == paths[..n] + [paths[n]];
      PathMatchesMeaning(paths[..n], permission, segs, m);
      MatchIsSegmentPrefix(paths[n], segs);
    }
  }

  /** A rule as written grants p at a depth: it names one of the identities and has a path whose
      segments are the first segments, that many, of the request. */
  ghost predicate Applies(written: seq<Rule>, identities: seq<string>, segs: seq<string>, depth: nat, p: Permission) {
    exists rule, path :: rule in written && path in rule.paths && IdentityMatches(rule.identities, identities)
                         && RuleSegments(path) <= segs && |RuleSegments(path)| == depth && rule.permission == p
  }

  lemma {:induction false} MatchesMeaning(written: seq<Rule>, identities: seq<string>, segs: seq<string>, m: Match)
    requires Clean(segs)
    ensures m in Matches(Built(Deny, written).rules, identities, RequestPath(segs)) <==>
      Applies(written, identities, segs, m.depth, m.permission)
  {
    if written != [] {
      var n := |written| - 1;
      var stored := Built(Deny, written).rules;
      assert stored[..n] == Built(Deny, written[..n]).rules;
      assert written == written[..n] + [written[n]];
      MatchesMeaning(written[..n], identities, segs, m);
      PathMatchesMeaning(written[n].paths, written[n].permission, segs, m);
      AppliesSnoc(written[..n], written[n], identities, segs, m);
    }
  }

  lemma AppliesSnoc(front: seq<Rule>, last: Rule, identities: seq<string>, segs: seq<string>, m: Match)
    ensures Applies(front + [last], identities, segs, m.depth, m.permission) <==>
      Applies(front, identities, segs, m.depth, m.permission)
          || Applies([last], identities, segs, m.depth, m.permission)
  {
    assert forall rule :: rule in front + [last] <==> rule in front || rule in [last];
  }

  /** The documented cascade, on rules and requests as written: without an applicable rule the
      default; otherwise, at the greatest applicable depth d, Deny when a rule there denies and else
      the highest permission granted there. The code follows it exactly when the permissions kept at
      that depth do not start with their only Deny. */
  lemma ResolveIsTheCascade(defaultPerm: Permission, written: seq<Rule>,
                            identities: seq<string>, segs: seq<string>, d: nat)
    requires Clean(segs)
    requires forall depth: nat, p :: Applies(written, identities, segs, depth, p) ==> depth <= d
    ensures var result := Effective(Built(defaultPerm, written), identities, RequestPath(segs));
            var kept := Kept(Matches(Built(defaultPerm, written).rules, identities, RequestPath(segs)));
      && ((forall depth: nat, p :: !Applies(written, identities, segs, depth, p)) ==> result == defaultPerm)
      && ((exists p :: Applies(written, identities, segs, d, p)) ==>
            (!LoneLeadingDeny(kept) <==>
               if Applies(written, identities, segs, d, Deny) then result == Deny
               else Applies(written, identities, segs, d, result)
                    && forall p :: Applies(written, identities, segs, d, p) ==> p.Rank() <= result.Rank()))
  {
    hide Applies, LoneLeadingDeny, Fold;
    RequestPathIsNormal(segs);
    var ms := Matches(Built(defaultPerm, written).rules, identities, RequestPath(segs));
    StoredMatches(defaultPerm, written, identities, segs);
    if exists p :: Applies(written, identities, segs, d, p) {
      KeptIsApplied(defaultPerm, written, identities, segs, d);
      FoldMeetsDocumentation(Kept(ms));
    } else if ms != [] {
      BestDepthIsGreatest(ms);
      var m :| m in ms;
      assert Applies(written, identities, segs, m.depth, m.permission);
    }
    HeadIsMember(ms);
  }

  lemma StoredMatches(defaultPerm: Permission, written: seq<Rule>, identities: seq<string>, segs: seq<string>)
    requires Clean(segs)
    ensures forall m: Match :: m in Matches(Built(defaultPerm, written).rules, identities, RequestPath(segs)) <==>
      Applies(written, identities, segs, m.depth, m.permission)
  {
    hide Applies;
    assert Built(defaultPerm, written).rules == Built(Deny, written).rules;
    forall m: Match
      ensures m in Matches(Built(defaultPerm, written).rules, identities, RequestPath(segs)) <==>
        Applies(written, identities, segs, m.depth, m.permission)
    {
      MatchesMeaning(written, identities, segs, m);
    }
  }

  /** What is kept at the greatest applicable depth is what the rules grant there. */
  lemma KeptIsApplied(defaultPerm: Permission, written: seq<Rule>, identities: seq<string>, segs: seq<string>, d: nat)
    requires Clean(segs) && exists p :: Applies(written, identities, segs, d, p)
    requires forall depth: nat, p :: Applies(written, identities, segs, depth, p) ==> depth <= d
    ensures var ms := Matches(Built(defaultPerm, written).rules, identities, RequestPath(segs));
      ms != [] && forall p :: p in Kept(ms) <==> Applies(written, identities, segs, d, p)
  {
    hide Applies, Kept;
    var ms := Matches(Built(defaultPerm, written).rules, identities, RequestPath(segs));
    StoredMatches(defaultPerm, written, identities, segs);
    var p :| Applies(written, identities, segs, d, p);
    assert Match(d, p) in ms;
    BestDepthIsGreatest(ms);
    assert BestDepth(ms) == d;
    KeptMeaning(ms, d);
    forall q: Permission
      ensures q in Kept(ms) <==> Applies(written, identities, segs, d, q)
    {
      assert q in Kept(ms) <==> Match(d, q) in ms;
      assert Match(d, q) in ms <==> Applies(written, identities, segs, d, q);
    }
  }

  lemma KeptMeaning(ms: seq<Match>, d: nat)
    requires BestDepth(ms) == d
    ensures forall p :: p in Kept(ms) <==> Match(d, p) in ms
  {
    PermissionsAtMembers(ms, d);
    forall p
      ensures p in Kept(ms) <==> Match(d, p) in ms
    {
      if p in Kept(ms) {
        var m :| m in ms && m.depth == d && m.permission == p;
        assert m == Match(d, p);
      }
    }
  }

  // ----- Single rules

  /** A rule that names neither "*" nor any identity of the request never changes the answer. */
  lemma StrangersRuleIrrelevant(a: seq<Rule>, rule: Rule, b: seq<Rule>, defaultPerm: Permission,
                                identities: seq<string>, path: string)
    requires "*" !in rule.identities && forall id :: id in identities ==> id !in rule.identities
    ensures Effective(Engine(defaultPerm, a + [rule] + b), identities, path)
         == Effective(Engine(defaultPerm, a + b), identities, path)
  {
    var req := NormalizePath(path);
    assert RuleMatches(rule, identities, req) == [];
    MatchesAppend(a, b, identities, req);
    MatchesAppend(a + [rule], b, identities, req);
    MatchesAppend(a, [rule], identities, req);
    assert Matches([rule], identities, req) == [] by { assert [rule][..0] == []; }
    var ma := Matches(a, identities, req);
    assert ma + [] == ma;
  }

  /** A rule that names "*" or an identity of the request and covers the request more closely than every
      other applicable rule decides, whatever it says and wherever it stands. */
  lemma ClosestRuleDecides(a: seq<Rule>, rule: Rule, b: seq<Rule>, defaultPerm: Permission,
                           identities: seq<string>, segs: seq<string>, path: string)
    requires Clean(segs) && path in rule.paths && RuleSegments(path) <= segs
    requires "*" in rule.identities || exists id :: id in identities && id in rule.identities
    requires forall p :: p in rule.paths && RuleSegments(p) <= segs ==> |RuleSegments(p)| <= |RuleSegments(path)|
    requires forall depth: nat, p :: Applies(a + b, identities, segs, depth, p) ==> depth < |RuleSegments(path)|
    ensures Effective(Built(defaultPerm, a + [rule] + b), identities, RequestPath(segs)) == rule.permission
  {
    var all, d := a + [rule] + b, |RuleSegments(path)|;
    forall depth: nat, p | Applies(all, identities, segs, depth, p)
      ensures depth <= d && (depth == d ==> p == rule.permission)
    {
      OneRuleMore(a, rule, b, identities, segs, depth, p);
    }
    assert Applies(all, identities, segs, d, rule.permission) by {
      assert rule in all && path in rule.paths && IdentityMatches(rule.identities, identities);
    }
    hide Applies, IdentityMatches, Kept, Effective, LoneLeadingDeny;
    KeptIsApplied(defaultPerm, all, identities, segs, d);
    ResolveIsTheCascade(defaultPerm, all, identities, segs, d);
    var kept := Kept(Matches(Built(defaultPerm, all).rules, identities, RequestPath(segs)));
    NotLoneWhenEqual(kept, rule.permission);
  }

  lemma OneRuleMore(a: seq<Rule>, rule: Rule, b: seq<Rule>, identities: seq<string>, segs: seq<string>,
                    depth: nat, p: Permission)
    requires Applies(a + [rule] + b, identities, segs, depth, p)
    ensures Applies(a + b, identities, segs, depth, p)
         || (rule.permission == p && exists path :: path in rule.paths && RuleSegments(path) <= segs
                                                    && |RuleSegments(path)| == depth)
  {
    hide RuleSegments, IdentityMatches;
    var r, path :| r in a + [rule] + b && path in r.paths && IdentityMatches(r.identities, identities)
                   && RuleSegments(path) <= segs && |RuleSegments(path)| == depth && r.permission == p;
    if r != rule {
      assert r in a + b;
    }
  }

  lemma NotLoneWhenEqual(kept: seq<Permission>, p: Permission)
    requires forall q :: q in kept ==> q == p
    ensures !LoneLeadingDeny(kept)
  {
    if |kept| >= 2 {
      assert kept[0] in kept && kept[1] in kept;
      assert kept[1] == kept[1..][0];
    }
  }
}
