/**
 Go's string helpers on '/'-separated paths. A string stands for the bytes of a Go string,
 one char per byte.
 */
module Text {

  /** strings.Split(s, "/"): always at least one part. */
  function Split(s: string): (parts: seq<string>)
    ensures |parts| >= 1
  {
    if s == "" then [""]
    else
      var rest := Split(s[1..]);
      if s[0] == '/' then [""] + rest
      else [[s[0]] + rest[0]] + rest[1..]
  }

  /** strings.Join(parts, "/"). */
  function Join(parts: seq<string>): string {
    if |parts| == 0 then ""
    else if |parts| == 1 then parts[0]
    else parts[0] + "/" + Join(parts[1..])
  }

  predicate HasPrefix(s: string, p: string) {
    p <= s
  }

  predicate EndsWithSlash(s: string) {
    s != "" && s[|s| - 1] == '/'
  }

  /** No part holds a separator. */
  ghost predicate SlashFree(parts: seq<string>) {
    forall i :: 0 <= i < |parts| ==> '/' !in parts[i]
  }

  lemma {:induction false} SplitIsSlashFree(s: string)
    ensures SlashFree(Split(s))
  {
    if s != "" {
      SplitIsSlashFree(s[1..]);
    }
  }

  /** Joining undoes splitting, for every string. */
  lemma {:induction false} JoinOfSplit(s: string)
    ensures Join(Split(s)) == s
  {
    if s != "" {
      var rest := Split(s[1..]);
      JoinOfSplit(s[1..]);
      if s[0] == '/' {
        assert ([""] + rest)[1..] == rest;
      } else {
        assert ([[s[0]] + rest[0]] + rest[1..])[1..] == rest[1..];
      }
    }
  }

  lemma {:induction false} SplitOfPart(s: string)
    requires '/' !in s
    ensures Split(s) == [s]
  {
    if s != "" {
      SplitOfPart(s[1..]);
      assert [s[0]] + s[1..] == s;
    }
  }

  /** A separator is a clean cut. */
  lemma {:induction false} SplitAtSlash(a: string, b: string)
    ensures Split(a + "/" + b) == Split(a) + Split(b)
  {
    var s := a + "/" + b;
    if a == "" {
      assert s[1..] == b;
    } else {
      assert s[1..] == a[1..] + "/" + b;
      SplitAtSlash(a[1..], b);
    }
  }

  /** Splitting undoes joining, for every nonempty list of separator-free parts. */
  lemma {:induction false} SplitOfJoin(parts: seq<string>)
    requires parts != [] && SlashFree(parts)
    ensures Split(Join(parts)) == parts
  {
    SplitOfPart(parts[0]);
    if |parts| > 1 {
      SplitOfJoin(parts[1..]);
      SplitAtSlash(parts[0], Join(parts[1..]));
    }
  }

  lemma {:induction false} JoinAppend(a: seq<string>, b: seq<string>)
    requires a != [] && b != []
    ensures Join(a + b) == Join(a) + "/" + Join(b)
  {
    if |a| == 1 {
      assert (a + b)[1..] == b;
    } else {
      assert (a + b)[1..] == a[1..] + b;
      JoinAppend(a[1..], b);
    }
  }

  /** The parts that are not empty, in order. */
  function NonEmpty(parts: seq<string>): (r: seq<string>)
    ensures forall i :: 0 <= i < |r| ==> r[i] != "" && r[i] in parts
  {
    if parts == [] then []
    else (if parts[0] == "" then [] else [parts[0]]) + NonEmpty(parts[1..])
  }

  lemma {:induction false} NonEmptyAppend(a: seq<string>, b: seq<string>)
    ensures NonEmpty(a + b) == NonEmpty(a) + NonEmpty(b)
  {
    if a == [] {
      assert a + b == b;
    } else {
      assert (a + b)[1..] == a[1..] + b;
      NonEmptyAppend(a[1..], b);
    }
  }

  lemma {:induction false} NonEmptyId(parts: seq<string>)
    requires "" !in parts
    ensures NonEmpty(parts) == parts
  {
    if parts != [] {
      NonEmptyId(parts[1..]);
    }
  }

  /** The nonempty segments of a path. */
  function Segments(p: string): seq<string> {
    NonEmpty(Split(p))
  }

  lemma SegmentsAtSlash(a: string, b: string)
    ensures Segments(a + "/" + b) == Segments(a) + Segments(b)
  {
    SplitAtSlash(a, b);
    NonEmptyAppend(Split(a), Split(b));
  }

  /** The segments of a joined list of nonempty separator-free names are those names. */
  lemma SegmentsOfJoin(parts: seq<string>)
    requires SlashFree(parts) && "" !in parts
    ensures Segments(Join(parts)) == parts
  {
    if parts != [] {
      SplitOfJoin(parts);
      NonEmptyId(parts);
    }
  }

  /** p with every run of slashes cut down to one. */
  function Collapse(p: string): string {
    if |p| >= 2 && p[0] == '/' && p[1] == '/' then Collapse(p[1..])
    else if p == "" then ""
    else [p[0]] + Collapse(p[1..])
  }

  lemma {:induction false} CollapseHead(p: string)
    ensures p != "" ==> Collapse(p) != "" && Collapse(p)[0] == p[0]
    ensures |Collapse(p)| <= |p|
  {
    if p != "" {
      CollapseHead(p[1..]);
    }
  }

  lemma {:induction false} CollapseTail(p: string)
    ensures EndsWithSlash(Collapse(p)) == EndsWithSlash(p)
  {
    if p != "" {
      CollapseTail(p[1..]);
      CollapseHead(p[1..]);
      if !(|p| >= 2 && p[0] == '/' && p[1] == '/') {
        assert Collapse(p) == [p[0]] + Collapse(p[1..]);
        if |p| > 1 {
          assert Collapse(p[1..]) != "";
          assert Collapse(p)[|Collapse(p)| - 1] == Collapse(p[1..])[|Collapse(p[1..])| - 1];
        }
      }
    }
  }

  /** The nonempty parts, with a first part taken apart from the others: the induction needs to
      know whether a prefix of a part is already under way. */
  lemma {:induction false} CollapseParts(p: string)
    ensures Split(Collapse(p))[0] == Split(p)[0]
    ensures NonEmpty(Split(Collapse(p))[1..]) == NonEmpty(Split(p)[1..])
  {
    if p == "" {
    } else {
      CollapseParts(p[1..]);
      var rest, crest := Split(p[1..]), Split(Collapse(p[1..]));
      NonEmptyHead(rest);
      NonEmptyHead(crest);
      if |p| >= 2 && p[0] == '/' && p[1] == '/' {
        assert Split(p) == [""] + rest;
        assert Split(p)[1..] == rest;
        assert rest[0] == "" by { assert p[1..][0] == '/'; }
      } else {
        var c := [p[0]] + Collapse(p[1..]);
        assert c[1..] == Collapse(p[1..]);
        if p[0] == '/' {
          assert Split(p)[1..] == rest;
          assert Split(c)[1..] == crest;
        } else {
          assert Split(p)[1..] == rest[1..];
          assert Split(c)[1..] == crest[1..];
        }
      }
    }
  }

  lemma NonEmptyHead(parts: seq<string>)
    requires parts != []
    ensures NonEmpty(parts) == (if parts[0] == "" then [] else [parts[0]]) + NonEmpty(parts[1..])
  {
  }

  /** Repeated slashes do not change the segments of a path. */
  lemma CollapseKeepsSegments(p: string)
    ensures Segments(Collapse(p)) == Segments(p)
  {
    CollapseParts(p);
    NonEmptyHead(Split(p));
    NonEmptyHead(Split(Collapse(p)));
  }
}
