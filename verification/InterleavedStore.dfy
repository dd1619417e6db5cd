/**
 From interleaved uploads to the store: whatever SaveProtocol reaches is a tree that BlobStore,
 BlobListing and SimpleStore speak about, and what a listing shows at such a moment.
 */
module InterleavedStore {
  import opened Prelude
  import opened BlobNames
  import opened FileTree
  import opened FileBackend
  import opened BlobStore
  import opened BlobListing
  import opened SaveProtocol

  // ----- The tree of a state

  function FilesOf(tree: Tree): map<Path, Bytes> {
    map p | p in tree && tree[p].File? :: tree[p].content
  }

  /** The path of an entry of data/. */
  predicate IsShardPath(repo: Path, p: Path) {
    |p| == |repo| + 2 && At(repo, "data", []) <= p
  }

  function OpenShards(tree: Tree, repo: Path): set<string> {
    set p | p in tree && IsShardPath(repo, p) && tree[p].Dir? :: NameOf(p)
  }

  /** The state of the protocol in which the uploads begin. */
  function Init(tree: Tree, repo: Path): State {
    State(FilesOf(tree), OpenShards(tree, repo), map[])
  }

  /** The directories: those of the tree at the start, with the shard directories as they are now. */
  function DirsAt(tree: Tree, repo: Path, open: set<string>): set<Path> {
    (set p | p in tree && tree[p].Dir? && !IsShardPath(repo, p)) + (set x | x in open :: At(repo, "data", [x]))
  }

  function TreeAt(tree: Tree, repo: Path, s: State): Tree {
    (map p | p in DirsAt(tree, repo, s.open) :: Dir) + (map p | p in s.files :: File(s.files[p]))
  }

  lemma ShardPathIs(repo: Path, t: string, rest: Path)
    ensures IsShardPath(repo, At(repo, t, rest)) <==> t == "data" && |rest| == 1
  {
    var p := At(repo, t, rest);
    if |p| == |repo| + 2 {
      assert p[|repo|] == t;
    }
  }

  lemma FilesOfTreeAt(tree: Tree, repo: Path, s: State)
    ensures FilesOf(TreeAt(tree, repo, s)) == s.files
  {
  }

  /** At the start it is the tree itself. */
  lemma TreeAtInit(tree: Tree, repo: Path)
    ensures TreeAt(tree, repo, Init(tree, repo)) == tree
  {
    var tree' := TreeAt(tree, repo, Init(tree, repo));
    forall p
      ensures p in DirsAt(tree, repo, OpenShards(tree, repo)) <==> p in tree && tree[p].Dir?
    {
      DirsAtInit(tree, repo, p);
    }
    assert forall p :: p in tree' <==> p in tree;
    assert forall p :: p in tree' ==> tree'[p] == tree[p];
  }

  lemma DirsAtInit(tree: Tree, repo: Path, p: Path)
    ensures p in DirsAt(tree, repo, OpenShards(tree, repo)) <==> p in tree && tree[p].Dir?
  {
    if IsShardPath(repo, p) {
      assert p == At(repo, "data", [NameOf(p)]);
    }
    if x :| x in OpenShards(tree, repo) && p == At(repo, "data", [x]) {
      var q :| q in tree && IsShardPath(repo, q) && tree[q].Dir? && NameOf(q) == x;
      assert q == At(repo, "data", [x]);
    }
  }

  // ----- Every state is a well-shaped tree

  lemma TempEntryOk(repo: Path, t: string, name: string, u: string, rest: Path)
    requires ValidTarget(t, name) && rest != [] && TempBeside(repo, t, name, At(repo, u, rest))
    ensures EntryOk(u, rest, File([]))
  {
    ParentOfPlace(repo, t, name);
    BlobNamesAreNotTemp(name);
    var temp := NameOf(At(repo, u, rest));
    var place := (if HasFallback(t, name) then [name[..2]] else []) + [temp];
    assert At(repo, t, place) == Parent(BlobPath(repo, t, name)) + [temp];
    AtInjective(repo, u, rest, t, place);
  }

  lemma BlobEntryOk(repo: Path, t: string, name: string, u: string, rest: Path)
    requires ValidTarget(t, name) && At(repo, u, rest) == BlobPath(repo, t, name)
    ensures EntryOk(u, rest, File([]))
  {
    BlobNamesAreNotTemp(name);
    AtInjective(repo, u, rest, t, Place(t, name));
  }

  /** What lies below a type directory depends on being a file, not on the content. */
  lemma FileEntryOk(tree: Tree, repo: Path, s: State, start: map<Path, Bytes>, t: string, rest: Path)
    requires EntriesOk(tree, repo) && start == FilesOf(tree) && Inv(repo, s, start)
    requires t in BLOB_TYPES && rest != [] && At(repo, t, rest) in s.files
    ensures EntryOk(t, rest, File([]))
  {
    hide IsTemp, TempBeside, ValidTarget, NeverBoth, EntryOk;
    var p := At(repo, t, rest);
    if p in start {
      assert EntryOk(t, rest, tree[p]);
      FilesLookAlike(t, rest, tree[p]);
    } else if IsTemp(p) {
      var id :| id in s.writers && s.writers[id].temp == p && (HasTemp(s.writers[id]) || s.writers[id].phase.Crashed?);
      assert WriterOk(repo, s, id);
      TempEntryOk(repo, s.writers[id].t, s.writers[id].name, t, rest);
    } else {
      var id :| id in s.writers && s.writers[id].phase == Finished(true) && FinalPath(repo, s.writers[id]) == p
                && s.files[p] == Payload(s.writers[id]);
      assert WriterOk(repo, s, id);
      BlobEntryOk(repo, s.writers[id].t, s.writers[id].name, t, rest);
    }
  }

  lemma FilesLookAlike(t: string, rest: Path, node: Node)
    requires rest != [] && node.File? && EntryOk(t, rest, node)
    ensures forall data :: EntryOk(t, rest, File(data))
  {
  }

  /** A directory below a type directory is an open shard. */
  lemma DirectoryIsShard(tree: Tree, repo: Path, s: State, t: string, rest: Path)
    requires EntriesOk(tree, repo) && t in BLOB_TYPES && rest != []
    requires At(repo, t, rest) in TreeAt(tree, repo, s) && TreeAt(tree, repo, s)[At(repo, t, rest)].Dir?
    ensures t == "data" && |rest| == 1 && rest[0] in s.open
  {
    var p := At(repo, t, rest);
    ShardPathIs(repo, t, rest);
    if p in tree && tree[p].Dir? {
      assert EntryOk(t, rest, tree[p]);
    }
    assert p in DirsAt(tree, repo, s.open);
    var x :| x in s.open && p == At(repo, "data", [x]);
    AtInjective(repo, t, rest, "data", [x]);
  }

  lemma TypeDirsStay(tree: Tree, repo: Path, s: State, t: string)
    requires t in BLOB_TYPES && IsDir(tree, At(repo, t, [])) && At(repo, t, []) !in s.files
    ensures IsDir(TreeAt(tree, repo, s), At(repo, t, []))
  {
    ShardPathIs(repo, t, []);
  }

  lemma OpenIsOpen(tree: Tree, repo: Path, s: State, x: string)
    requires At(repo, "data", [x]) !in s.files || !HexPair(x)
    requires forall y :: y in s.open ==> HexPair(y)
    ensures Open(TreeAt(tree, repo, s), repo, x) <==> x in s.open
  {
    ShardPathIs(repo, "data", [x]);
    if y :| y in s.open && At(repo, "data", [x]) == At(repo, "data", [y]) {
      AtInjective(repo, "data", [x], "data", [y]);
    }
  }

  /** No file takes the place of a type directory. */
  lemma NoFileAtType(tree: Tree, repo: Path, s: State, t: string)
    requires TypeDirsOk(tree, repo) && Inv(repo, s, FilesOf(tree)) && t in BLOB_TYPES
    ensures At(repo, t, []) !in s.files
  {
    var p := At(repo, t, []);
    hide Inv, IsTemp, WritersOk;
    if p in s.files {
      assert IsDir(tree, p);
      FileIsBelow(repo, s, FilesOf(tree), p);
      assert false;
    }
  }

  /** A file that was not there at the start is longer than the path of a type directory. */
  lemma FileIsBelow(repo: Path, s: State, start: map<Path, Bytes>, p: Path)
    requires Inv(repo, s, start) && p in s.files && p !in start
    ensures |p| >= |repo| + 2
  {
    hide ValidTarget, NeverBoth, TempName;
    if IsTemp(p) {
      var id :| id in s.writers && s.writers[id].temp == p && (HasTemp(s.writers[id]) || s.writers[id].phase.Crashed?);
      assert WriterOk(repo, s, id);
      ParentOfPlace(repo, s.writers[id].t, s.writers[id].name);
    } else {
      var id :| id in s.writers && s.writers[id].phase == Finished(true) && FinalPath(repo, s.writers[id]) == p
                && s.files[p] == Payload(s.writers[id]);
    }
  }

  /** Whatever uploads, failures, crashes and deletions do to a well-shaped repository, in any
      interleaving, with shard directories that come and go, the tree stays well shaped: so at every
      moment the requests that follow are answered by the simple store of SimpleStore. */
  lemma InterleavingKeepsShape(tree: Tree, repo: Path, steps: seq<Step>)
    requires Shape(tree, repo) && Legal(repo, Init(tree, repo), steps)
    ensures var s := End(repo, Init(tree, repo), steps); var tree' := TreeAt(tree, repo, s);
      && Shape(tree', repo)
      && FilesOf(tree') == s.files
      && (forall x :: Open(tree', repo, x) <==> x in s.open)
  {
    var start := FilesOf(tree);
    var s := End(repo, Init(tree, repo), steps);
    ShapeIsNeverBoth(tree, repo);
    InitIsOpenOk(tree, repo);
    RunKeepsInv(repo, Init(tree, repo), start, steps);
    RunKeepsOpen(repo, Init(tree, repo), start, steps);
    hide Legal, End, Init;
    StateIsShaped(tree, repo, s);
  }

  lemma InitIsOpenOk(tree: Tree, repo: Path)
    requires Shape(tree, repo)
    ensures OpenOk(repo, Init(tree, repo))
  {
    forall x | x in OpenShards(tree, repo)
      ensures HexPair(x)
    {
      var p :| p in tree && IsShardPath(repo, p) && tree[p].Dir? && NameOf(p) == x;
      assert p == At(repo, "data", [x]);
      assert EntryOk("data", [x], tree[p]);
    }
    forall x, name | At(repo, "data", [x, name]) in FilesOf(tree)
      ensures x in OpenShards(tree, repo)
    {
      assert Open(tree, repo, x);
      var p := At(repo, "data", [x]);
      ShardPathIs(repo, "data", [x]);
      assert p in tree && NameOf(p) == x;
    }
  }

  lemma StateIsShaped(tree: Tree, repo: Path, s: State)
    requires Shape(tree, repo) && Inv(repo, s, FilesOf(tree)) && OpenOk(repo, s)
    ensures Shape(TreeAt(tree, repo, s), repo) && FilesOf(TreeAt(tree, repo, s)) == s.files
    ensures forall x :: Open(TreeAt(tree, repo, s), repo, x) <==> x in s.open
  {
    var tree' := TreeAt(tree, repo, s);
    FilesOfTreeAt(tree, repo, s);
    StateEntries(tree, repo, s);
    hide Inv, EntryOk, TreeAt;
    forall t | t in BLOB_TYPES
      ensures IsDir(tree', At(repo, t, []))
    {
      NoFileAtType(tree, repo, s, t);
      TypeDirsStay(tree, repo, s, t);
    }
    forall x
      ensures Open(tree', repo, x) <==> x in s.open
    {
      ShardIsNoFile(tree, repo, s, x);
      OpenIsOpen(tree, repo, s, x);
    }
    forall x, name | At(repo, "data", [x, name]) in tree'
      ensures Open(tree', repo, x)
    {
      StateShards(tree, repo, s, x, name);
    }
    NeverBothIsOnePlace(tree', repo, s, FilesOf(tree));
  }

  lemma StateEntries(tree: Tree, repo: Path, s: State)
    requires Shape(tree, repo) && Inv(repo, s, FilesOf(tree)) && OpenOk(repo, s)
    ensures EntriesOk(TreeAt(tree, repo, s), repo)
  {
    var tree' := TreeAt(tree, repo, s);
    FilesOfTreeAt(tree, repo, s);
    hide Inv, TreeAt, OnePlace, ShardsAreDirs, TypeDirsOk;
    forall t, rest | t in BLOB_TYPES && rest != [] && At(repo, t, rest) in tree'
      ensures EntryOk(t, rest, tree'[At(repo, t, rest)])
    {
      if tree'[At(repo, t, rest)].File? {
        assert At(repo, t, rest) in FilesOf(tree');
        FileEntryOk(tree, repo, s, FilesOf(tree), t, rest);
        FilesLookAlike(t, rest, File([]));
      } else {
        DirectoryIsShard(tree, repo, s, t, rest);
      }
    }
  }

  lemma ShardIsNoFile(tree: Tree, repo: Path, s: State, x: string)
    requires EntriesOk(tree, repo) && Inv(repo, s, FilesOf(tree))
    ensures At(repo, "data", [x]) !in s.files || !HexPair(x)
  {
    if At(repo, "data", [x]) in s.files && HexPair(x) {
      hide Inv;
      FileEntryOk(tree, repo, s, FilesOf(tree), "data", [x]);
      assert false;
    }
  }

  lemma StateShards(tree: Tree, repo: Path, s: State, x: string, name: string)
    requires EntriesOk(tree, repo) && OpenOk(repo, s) && At(repo, "data", [x, name]) in TreeAt(tree, repo, s)
    ensures x in s.open
  {
    if TreeAt(tree, repo, s)[At(repo, "data", [x, name])].Dir? {
      DirectoryIsShard(tree, repo, s, "data", [x, name]);
      assert false;
    } else {
      FilesOfTreeAt(tree, repo, s);
      assert At(repo, "data", [x, name]) in FilesOf(TreeAt(tree, repo, s));
    }
  }

  lemma ShapeIsNeverBoth(tree: Tree, repo: Path)
    requires Shape(tree, repo)
    ensures NeverBoth(repo, FilesOf(tree))
  {
    assert forall p :: p in FilesOf(tree) ==> p != [] ==> IsFile(tree, p);
  }

  lemma NeverBothIsOnePlace(tree: Tree, repo: Path, s: State, start: map<Path, Bytes>)
    requires Inv(repo, s, start) && FilesOf(tree) == s.files && EntriesOk(tree, repo)
    ensures OnePlace(tree, repo)
  {
    forall name | HasFallback("data", name)
      ensures !(IsFile(tree, BlobPath(repo, "data", name)) && IsFile(tree, FlatPath(repo, name)))
    {
      if IsFile(tree, BlobPath(repo, "data", name)) && IsFile(tree, FlatPath(repo, name)) {
        ShardedIsBlob(name, tree[BlobPath(repo, "data", name)]);
        assert false;
      }
    }
  }

  /** The temporary files below a type directory were there at the start, or belong to a writer that
      is still at work or has crashed. */
  ghost predicate TempsExplained(tree: Tree, tree': Tree, repo: Path, s: State, t: string) {
    forall p :: p in TempsBelow(tree', At(repo, t, [])) ==>
      p in TempsBelow(tree, At(repo, t, [])) || Owned(s, p)
  }

  lemma UploadsExplainTemps(tree: Tree, repo: Path, steps: seq<Step>, t: string)
    requires Shape(tree, repo) && Legal(repo, Init(tree, repo), steps)
    ensures var s := End(repo, Init(tree, repo), steps); TempsExplained(tree, TreeAt(tree, repo, s), repo, s, t)
  {
    var start := FilesOf(tree);
    var s := End(repo, Init(tree, repo), steps);
    var tree' := TreeAt(tree, repo, s);
    ShapeIsNeverBoth(tree, repo);
    RunKeepsInv(repo, Init(tree, repo), start, steps);
    FilesOfTreeAt(tree, repo, s);
    assert FilesOk(repo, s, start);
    hide Shape, Inv, Legal, End, FilesOk, Owned, WrittenWhole, TreeAt;
    forall p | p in TempsBelow(tree', At(repo, t, []))
      ensures p in TempsBelow(tree, At(repo, t, [])) || Owned(s, p)
    {
      assert p in FilesOf(tree') && IsTemp(p);
      TempExplained(repo, s, start, p);
      assert p in start ==> p in TempsBelow(tree, At(repo, t, []));
    }
  }

  lemma TempExplained(repo: Path, s: State, start: map<Path, Bytes>, p: Path)
    requires FilesOk(repo, s, start) && p in s.files && IsTemp(p)
    ensures p in start || Owned(s, p)
  {
  }

  /** What a listing of a type shows in the middle of uploads, or after crashes: every stored blob
      once, and an entry for each temporary file. Once all writers are finished, without a crash,
      it is exact if no temporary file was there at the start. */
  lemma ListingDuringUploads(tree: Tree, repo: Path, steps: seq<Step>, t: string, blobs: seq<BlobInfo>)
    requires Shape(tree, repo) && Legal(repo, Init(tree, repo), steps) && t in BLOB_TYPES
    requires var tree' := TreeAt(tree, repo, End(repo, Init(tree, repo), steps));
      Listed(blobs, tree', FilesBelow(tree', At(repo, t, [])))
    ensures var s := End(repo, Init(tree, repo), steps); var tree' := TreeAt(tree, repo, s);
      && (forall b :: b in blobs && !TempName(b.name) <==> IsStored(tree', repo, t, b))
      && ((forall b :: b in blobs ==> IsStored(tree', repo, t, b)) <==> TempsBelow(tree', At(repo, t, [])) == {})
      && TempsExplained(tree, tree', repo, s, t)
      && ((forall id :: id in s.writers ==> s.writers[id].phase.Finished?)
          && TempsBelow(tree, At(repo, t, [])) == {} ==>
            forall b :: b in blobs ==> IsStored(tree', repo, t, b))
  {
    hide Shape, IsStored, Listed, Legal, End, FilesBelow, TempsBelow, FilesOf, TreeAt, Init;
    var s := End(repo, Init(tree, repo), steps);
    InterleavingKeepsShape(tree, repo, steps);
    UploadsExplainTemps(tree, repo, steps, t);
    var _ := ListingIsExact(TreeAt(tree, repo, s), repo, t, blobs);
    NothingOwned(s);
  }

  lemma NothingOwned(s: State)
    ensures (forall id :: id in s.writers ==> s.writers[id].phase.Finished?) ==> forall p :: !Owned(s, p)
  {
  }

  // ----- A crash

  lemma OneStep(repo: Path, s: State, step: Step, rest: seq<Step>)
    requires Enabled(repo, s, step) && Legal(repo, After(repo, s, step), rest)
    ensures Legal(repo, s, [step] + rest)
    ensures End(repo, s, [step] + rest) == End(repo, After(repo, s, step), rest)
  {
    hide Enabled, After;
    assert ([step] + rest)[1..] == rest;
  }

  /** The steps of an upload that crashes while its temporary file is empty. */
  function CrashingUpload(id: nat, t: string, name: string, chunks: seq<Bytes>, temp: Path): seq<Step> {
    [Start(id, t, name, chunks)] + ([Validate(id)] + ([CheckSharded(id)] + CrashedWrite(id, temp)))
  }

  function CrashedWrite(id: nat, temp: Path): seq<Step> {
    [MakeDirectory(id)] + ([CreateTemp(id, temp)] + ([Crash(id)] + []))
  }

  /** It happens: on any well-shaped repository, an upload that crashes in its write leaves a temporary
      file below the type directory, and no listing of the type is exact from then on. */
  lemma CrashLeavesTemp(tree: Tree, repo: Path, t: string, name: string, chunks: seq<Bytes>, temp: string,
                        blobs: seq<BlobInfo>)
    requires Shape(tree, repo) && ValidTarget(t, name) && !HasFallback(t, name) && Lookup(tree, repo, t, name).None?
    requires TempName(temp) && At(repo, t, [temp]) !in tree
    ensures var steps := CrashingUpload(0, t, name, chunks, At(repo, t, [temp]));
      && Legal(repo, Init(tree, repo), steps)
      && var tree' := TreeAt(tree, repo, End(repo, Init(tree, repo), steps));
         && IsFile(tree', At(repo, t, [temp]))
         && (Listed(blobs, tree', FilesBelow(tree', At(repo, t, []))) ==>
               exists b :: b in blobs && !IsStored(tree', repo, t, b))
  {
    var p := At(repo, t, [temp]);
    var steps := CrashingUpload(0, t, name, chunks, p);
    CrashingIsLegal(tree, repo, t, name, chunks, p);
    var s := End(repo, Init(tree, repo), steps);
    var tree' := TreeAt(tree, repo, s);
    InterleavingKeepsShape(tree, repo, steps);
    assert p in FilesOf(tree') && IsFile(tree', p) && p in TempsBelow(tree', At(repo, t, []));
    hide *;
    if Listed(blobs, tree', FilesBelow(tree', At(repo, t, []))) {
      var _ := ListingIsExact(tree', repo, t, blobs);
    }
  }

  lemma CrashingIsLegal(tree: Tree, repo: Path, t: string, name: string, chunks: seq<Bytes>, temp: Path)
    requires ValidTarget(t, name) && !HasFallback(t, name) && BlobPath(repo, t, name) !in FilesOf(tree)
    requires TempBeside(repo, t, name, temp) && temp !in tree
    ensures Legal(repo, Init(tree, repo), CrashingUpload(0, t, name, chunks, temp))
    ensures temp in End(repo, Init(tree, repo), CrashingUpload(0, t, name, chunks, temp)).files
  {
    hide ValidTarget, TempBeside, HasFallback;
    var s0 := Init(tree, repo);
    var s1 := After(repo, s0, Start(0, t, name, chunks));
    var s2 := After(repo, s1, Validate(0));
    var s3 := After(repo, s2, CheckSharded(0));
    assert s3.writers[0] == Writer(t, name, chunks, MakeDir, []) && s3.files == FilesOf(tree);
    hide *;
    CrashingWrite(repo, s3, 0, temp);
    var write := CrashedWrite(0, temp);
    OneStep(repo, s2, CheckSharded(0), write);
    OneStep(repo, s1, Validate(0), [CheckSharded(0)] + write);
    OneStep(repo, s0, Start(0, t, name, chunks), [Validate(0)] + ([CheckSharded(0)] + write));
    assert CrashingUpload(0, t, name, chunks, temp)
        == [Start(0, t, name, chunks)] + ([Validate(0)] + ([CheckSharded(0)] + write)) by {
      CrashingSteps(0, t, name, chunks, temp);
    }
  }

  lemma CrashingWrite(repo: Path, s: State, id: nat, temp: Path)
    requires id in s.writers && s.writers[id].phase == MakeDir && !HasFallback(s.writers[id].t, s.writers[id].name)
    requires TempBeside(repo, s.writers[id].t, s.writers[id].name, temp) && temp !in s.files
    ensures Legal(repo, s, CrashedWrite(id, temp))
    ensures temp in End(repo, s, CrashedWrite(id, temp)).files
  {
    hide TempBeside, HasFallback;
    var s1 := After(repo, s, MakeDirectory(id));
    var s2 := After(repo, s1, CreateTemp(id, temp));
    var s3 := After(repo, s2, Crash(id));
    assert Legal(repo, s3, []) && End(repo, s3, []) == s3 && temp in s3.files;
    hide Legal, End, Enabled, After;
    OneStep(repo, s2, Crash(id), []);
    OneStep(repo, s1, CreateTemp(id, temp), [Crash(id)] + []);
    OneStep(repo, s, MakeDirectory(id), [CreateTemp(id, temp)] + ([Crash(id)] + []));
  }

  lemma CrashingSteps(id: nat, t: string, name: string, chunks: seq<Bytes>, temp: Path)
    ensures CrashingUpload(id, t, name, chunks, temp)
         == [Start(id, t, name, chunks)] + ([Validate(id)] + ([CheckSharded(id)] + CrashedWrite(id, temp)))
  {
  }
}
