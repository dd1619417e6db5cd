/**
 Listings of the file backends: one entry for each file, in whatever order, and what the entries say
 about the blobs that are stored.
 */
module BlobListing {
  import opened Prelude
  import opened MapSum
  import opened BlobNames
  import opened FileTree
  import opened FileBackend
  import opened BlobStore

  // ----- Entries by place

  ghost predicate AllBelow(tree: Tree, dir: Path, files: set<Path>) {
    forall p :: p in files ==> dir < p && IsFile(tree, p)
  }

  /** What a listing says of each of the files, by their places below a directory. */
  ghost function Infos(tree: Tree, dir: Path, files: set<Path>): (m: map<Path, BlobInfo>)
    requires AllBelow(tree, dir, files)
    ensures forall r :: r in m <==> dir + r in files
    ensures forall r :: r in m ==> m[r] == InfoOf(tree, dir + r)
  {
    assert forall p :: p in files ==> dir + p[|dir|..] == p;
    assert forall r: Path :: (dir + r)[|dir|..] == r;
    map r | r in (set p | p in files :: p[|dir|..]) :: InfoOf(tree, dir + r)
  }

  /** A listing, in whatever order, has one entry for each of the files. */
  lemma {:induction false} ListedIsInfos(blobs: seq<BlobInfo>, tree: Tree, dir: Path, files: set<Path>)
    requires Listed(blobs, tree, files) && AllBelow(tree, dir, files)
    ensures multiset(blobs) == Values(Infos(tree, dir, files))
  {
    if blobs == [] {
      assert Infos(tree, dir, files) == map[];
    } else {
      var front := blobs[..|blobs| - 1];
      var p := LastListed(blobs, tree, files);
      FewerBelow(tree, dir, files, p);
      hide *;
      ListedIsInfos(front, tree, dir, files - {p});
      InfosTake(tree, dir, files, p);
    }
  }

  lemma LastListed(blobs: seq<BlobInfo>, tree: Tree, files: set<Path>) returns (p: Path)
    requires Listed(blobs, tree, files) && blobs != []
    ensures p in files && IsFile(tree, p) && Listed(blobs[..|blobs| - 1], tree, files - {p})
    ensures blobs == blobs[..|blobs| - 1] + [InfoOf(tree, p)]
    ensures multiset(blobs) == multiset(blobs[..|blobs| - 1]) + multiset{InfoOf(tree, p)}
  {
    var last := blobs[|blobs| - 1];
    p :| p in files && IsFile(tree, p) && last == InfoOf(tree, p) && Listed(blobs[..|blobs| - 1], tree, files - {p});
    hide *;
    assert blobs == blobs[..|blobs| - 1] + [last];
    MultisetOfLast(blobs);
  }

  lemma FewerBelow(tree: Tree, dir: Path, files: set<Path>, p: Path)
    requires AllBelow(tree, dir, files)
    ensures AllBelow(tree, dir, files - {p})
  {
  }

  lemma InfosTake(tree: Tree, dir: Path, files: set<Path>, p: Path)
    requires p in files && AllBelow(tree, dir, files) && AllBelow(tree, dir, files - {p}) && IsFile(tree, p)
    ensures Values(Infos(tree, dir, files)) == Values(Infos(tree, dir, files - {p})) + multiset{InfoOf(tree, p)}
  {
    var r := p[|dir|..];
    assert dir + r == p;
    var m, m' := Infos(tree, dir, files), Infos(tree, dir, files - {p});
    hide *;
    forall q
      ensures q in m' <==> q in m && q != r
      ensures q in m' ==> m'[q] == m[q]
    {
      SuffixIs(dir, q, r);
    }
    assert m - {r} == m';
    ValuesTake(m, r);
  }

  lemma SuffixIs(dir: Path, q: Path, r: Path)
    ensures dir + q == dir + r <==> q == r
  {
    assert (dir + q)[|dir|..] == q && (dir + r)[|dir|..] == r;
  }

  lemma BelowIsBelow(tree: Tree, dir: Path)
    ensures AllBelow(tree, dir, FilesBelow(tree, dir))
    ensures forall r :: dir + r in FilesBelow(tree, dir) <==> r != [] && IsFile(tree, dir + r)
  {
  }

  // ----- What a listing says

  /** The entry is that of a stored blob. */
  predicate IsStored(tree: Tree, repo: Path, t: string, b: BlobInfo) {
    && ValidTarget(t, b.name)
    && Lookup(tree, repo, t, b.name).Some? && |Lookup(tree, repo, t, b.name).value| == b.size
  }

  function TempsBelow(tree: Tree, dir: Path): set<Path> {
    set p | p in FilesBelow(tree, dir) && TempName(NameOf(p))
  }

  /** The place of a file below a type directory, and the blob it is. */
  lemma FileBelowIsBlob(tree: Tree, repo: Path, t: string, p: Path)
    requires Shape(tree, repo) && t in BLOB_TYPES && p in FilesBelow(tree, At(repo, t, []))
    requires !TempName(NameOf(p))
    ensures ValidTarget(t, NameOf(p))
    ensures p == BlobPath(repo, t, NameOf(p)) || (HasFallback(t, NameOf(p)) && p == FlatPath(repo, NameOf(p)))
    ensures Lookup(tree, repo, t, NameOf(p)) == Some(tree[p].content)
  {
    var rest, name := p[|repo| + 1..], NameOf(p);
    assert p == At(repo, t, rest) && rest != [] && rest[|rest| - 1] == name;
    assert EntryOk(t, rest, tree[p]);
    EntryPlace(t, rest, tree[p]);
    assert OnePlace(tree, repo);
    hide *;
    LookupAt(tree, repo, t, rest);
  }

  /** What lies at one of the two places of a name is its blob. */
  lemma LookupAt(tree: Tree, repo: Path, t: string, rest: Path)
    requires OnePlace(tree, repo) && rest != [] && IsFile(tree, At(repo, t, rest))
    requires rest == Place(t, NameOf(rest)) || (HasFallback(t, NameOf(rest)) && rest == [NameOf(rest)])
    ensures Lookup(tree, repo, t, NameOf(rest)) == Some(tree[At(repo, t, rest)].content)
    ensures NameOf(At(repo, t, rest)) == NameOf(rest)
    ensures At(repo, t, rest) == BlobPath(repo, t, NameOf(rest))
      || (HasFallback(t, NameOf(rest)) && At(repo, t, rest) == FlatPath(repo, NameOf(rest)))
  {
  }

  lemma EntryPlace(t: string, rest: Path, node: Node)
    requires rest != [] && EntryOk(t, rest, node) && node.File? && !TempName(NameOf(rest))
    ensures ValidBlobName(NameOf(rest))
    ensures rest == Place(t, NameOf(rest)) || (HasFallback(t, NameOf(rest)) && rest == [NameOf(rest)])
  {
  }

  lemma BlobIsFileBelow(tree: Tree, repo: Path, t: string, name: string) returns (p: Path)
    requires ValidTarget(t, name) && Lookup(tree, repo, t, name).Some?
    ensures p in FilesBelow(tree, At(repo, t, [])) && NameOf(p) == name && !TempName(name)
    ensures tree[p].content == Lookup(tree, repo, t, name).value
  {
    BlobNamesAreNotTemp(name);
    p := if IsFile(tree, BlobPath(repo, t, name)) then BlobPath(repo, t, name) else FlatPath(repo, name);
    assert At(repo, t, []) <= p;
  }

  /** Entry i of the listing is that of the file at[i], and every file has one entry. */
  ghost predicate EntriesAt(tree: Tree, files: set<Path>, blobs: seq<BlobInfo>, at: seq<Path>) {
    && |at| == |blobs|
    && (forall i :: 0 <= i < |at| ==> at[i] in files && IsFile(tree, at[i]) && blobs[i] == InfoOf(tree, at[i]))
    && (forall i, j :: 0 <= i < j < |at| ==> at[i] != at[j])
    && (forall p :: p in files ==> p in at)
  }

  /** Each file has its own entry. */
  lemma {:induction false} ListedPositions(blobs: seq<BlobInfo>, tree: Tree, files: set<Path>) returns (at: seq<Path>)
    requires Listed(blobs, tree, files)
    ensures EntriesAt(tree, files, blobs, at)
  {
    if blobs == [] {
      return [];
    }
    var front, last := blobs[..|blobs| - 1], blobs[|blobs| - 1];
    var p :| p in files && IsFile(tree, p) && last == InfoOf(tree, p) && Listed(front, tree, files - {p});
    var before := ListedPositions(front, tree, files - {p});
    at := before + [p];
  }

  /** A listing of a type directory names every stored blob of the type once, with its size; beside
      these it has one entry for each temporary file that lies there. So it is exact if and only if
      there is no temporary file. */
  lemma ListingIsExact(tree: Tree, repo: Path, t: string, blobs: seq<BlobInfo>) returns (at: seq<Path>)
    requires Shape(tree, repo) && t in BLOB_TYPES
    requires Listed(blobs, tree, FilesBelow(tree, At(repo, t, [])))
    ensures EntriesAt(tree, FilesBelow(tree, At(repo, t, [])), blobs, at)
    ensures forall b :: b in blobs && !TempName(b.name) <==> IsStored(tree, repo, t, b)
    ensures forall i, j :: 0 <= i < j < |blobs| && blobs[i].name == blobs[j].name ==> TempName(blobs[i].name)
    ensures (forall b :: b in blobs ==> IsStored(tree, repo, t, b)) <==> TempsBelow(tree, At(repo, t, [])) == {}
  {
    hide Shape, IsStored, TempName, Listed, FilesBelow, TempsBelow, EntriesAt;
    at := ListedPositions(blobs, tree, FilesBelow(tree, At(repo, t, [])));
    forall b
      ensures b in blobs && !TempName(b.name) <==> IsStored(tree, repo, t, b)
    {
      EntryIsStored(tree, repo, t, blobs, at, b);
    }
    forall i, j | 0 <= i < j < |blobs| && blobs[i].name == blobs[j].name
      ensures TempName(blobs[i].name)
    {
      EntriesDiffer(tree, repo, t, blobs, at, i, j);
    }
    TempsAreListed(tree, At(repo, t, []), blobs, at);
  }

  lemma EntriesDiffer(tree: Tree, repo: Path, t: string, blobs: seq<BlobInfo>, at: seq<Path>, i: nat, j: nat)
    requires Shape(tree, repo) && t in BLOB_TYPES && EntriesAt(tree, FilesBelow(tree, At(repo, t, [])), blobs, at)
    requires i < j < |blobs| && blobs[i].name == blobs[j].name
    ensures TempName(blobs[i].name)
  {
    NamesDiffer(tree, repo, t, at[i], at[j]);
  }

  /** The entries with a temporary name are those of the temporary files. */
  lemma TempsAreListed(tree: Tree, dir: Path, blobs: seq<BlobInfo>, at: seq<Path>)
    requires EntriesAt(tree, FilesBelow(tree, dir), blobs, at)
    ensures (forall b :: b in blobs ==> !TempName(b.name)) <==> TempsBelow(tree, dir) == {}
  {
    hide TempName;
    if p :| p in TempsBelow(tree, dir) {
      var i :| 0 <= i < |at| && at[i] == p;
      assert blobs[i] in blobs && TempName(blobs[i].name);
    }
    forall i | 0 <= i < |blobs|
      ensures TempName(blobs[i].name) ==> at[i] in TempsBelow(tree, dir)
    {
    }
  }

  lemma EntryIsStored(tree: Tree, repo: Path, t: string, blobs: seq<BlobInfo>, at: seq<Path>, b: BlobInfo)
    requires Shape(tree, repo) && t in BLOB_TYPES && EntriesAt(tree, FilesBelow(tree, At(repo, t, [])), blobs, at)
    ensures b in blobs && !TempName(b.name) <==> IsStored(tree, repo, t, b)
  {
    hide Shape, Lookup, ValidTarget, TempName, FilesBelow;
    if b in blobs && !TempName(b.name) {
      var i :| 0 <= i < |blobs| && blobs[i] == b;
      FileBelowIsBlob(tree, repo, t, at[i]);
    }
    if IsStored(tree, repo, t, b) {
      var p := BlobIsFileBelow(tree, repo, t, b.name);
      var i :| 0 <= i < |at| && at[i] == p;
      assert blobs[i] == b;
    }
  }

  lemma NamesDiffer(tree: Tree, repo: Path, t: string, p: Path, q: Path)
    requires Shape(tree, repo) && t in BLOB_TYPES && p != q
    requires p in FilesBelow(tree, At(repo, t, [])) && q in FilesBelow(tree, At(repo, t, []))
    ensures p != [] && q != [] && (NameOf(p) == NameOf(q) ==> TempName(NameOf(p)))
  {
    if NameOf(p) == NameOf(q) && !TempName(NameOf(p)) {
      FileBelowIsBlob(tree, repo, t, p);
      FileBelowIsBlob(tree, repo, t, q);
    }
  }
}
