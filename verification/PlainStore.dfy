/**
 The plain reading of SimpleStore: on an ordinary repository, created as the program creates it and
 used with ordinary names, the filesystem backend is a map from type and name to bytes.
 */
module PlainStore {
  import opened Prelude
  import opened MapSum
  import opened BlobNames
  import opened FileTree
  import opened FileBackend
  import opened BlobStore
  import opened SimpleStore

  /** Data blobs are asked for under names of at least three characters that begin with a shard. */
  predicate Ordinary(op: Op) {
    if op.List? then op.t in BLOB_TYPES
    else ValidTarget(op.t, op.name) && (HasFallback(op.t, op.name) ==> |op.name| >= 3 && IsShard(op.name[..2]))
  }

  /** All 256 shards are there, and no temporary file. */
  ghost predicate Undisturbed(s: Simple) {
    (forall x :: IsShard(x) ==> x in s.open) && s.temps == map[]
  }

  function NamesOf(m: Blobs, t: string): set<string> {
    set k | k in m && k.0 == t :: k.1
  }

  function PlainEntries(m: Blobs, t: string): map<string, BlobInfo> {
    map name | name in NamesOf(m, t) :: BlobInfo(name, |m[(t, name)]|)
  }

  /** A map in which the first value of a name stays until it is deleted. */
  ghost function PlainStep(m: Blobs, op: Op): (Blobs, Reply) {
    match op
    case Save(t, name, body, fault) =>
      if (t, name) in m then (m, Done)
      else (match Written(body, fault)
            case None => (m, Failed)
            case Some(data) => (m[(t, name) := data], Done))
    case StatOp(t, name) => (m, if (t, name) in m then Size(|m[(t, name)]|) else Missing)
    case Get(t, name) => (m, if (t, name) in m then Body(m[(t, name)]) else Missing)
    case Delete(t, name) => if (t, name) in m then (m - {(t, name)}, Done) else (m, Missing)
    case List(t) => (m, Listing(Values(PlainEntries(m, t))))
  }

  /** A listing is the values of the map. */
  lemma ListingIsPlain(s: Simple, t: string)
    requires s.temps == map[]
    ensures Values(Entries(Filesystem, s, t)) == Values(PlainEntries(s.blobs, t))
  {
    var entries, plain := Entries(Filesystem, s, t), PlainEntries(s.blobs, t);
    RootIsNoEntry(Filesystem, s, t);
    var f := map r | r in entries :: NameOf(r);
    assert TempPlaces(Filesystem, s, t) == {};
    forall r | r in entries
      ensures f[r] in plain && plain[f[r]] == entries[r] && r == PlaceOf(s, t, f[r])
    {
      EntryIsPlain(s, t, r);
    }
    forall name | name in plain
      ensures exists r :: r in f && f[r] == name
    {
      PlainIsEntry(s, t, name);
      assert PlaceOf(s, t, name) in f;
    }
    hide *;
    ValuesRekey(entries, plain, f);
  }

  lemma EntryIsPlain(s: Simple, t: string, r: Path)
    requires r in Entries(Filesystem, s, t) && r in BlobPlaces(Filesystem, s, t) && s.temps == map[] && r != []
    ensures NameOf(r) in PlainEntries(s.blobs, t)
    ensures Entries(Filesystem, s, t)[r] == PlainEntries(s.blobs, t)[NameOf(r)] && r == PlaceOf(s, t, NameOf(r))
  {
    var k :| k in s.blobs && k.0 == t && r == PlaceOf(s, t, k.1);
    PlaceNames(t, k.1, t, k.1);
    assert NameOf(r) == k.1;
  }

  lemma PlainIsEntry(s: Simple, t: string, name: string)
    requires name in PlainEntries(s.blobs, t)
    ensures PlaceOf(s, t, name) in Entries(Filesystem, s, t) && NameOf(PlaceOf(s, t, name)) == name
  {
    PlaceNames(t, name, t, name);
    var k :| k in s.blobs && k.0 == t && k.1 == name;
    assert Visible(Filesystem, t, PlaceOf(s, t, k.1));
  }

  lemma StepIsPlain(s: Simple, op: Op)
    requires Undisturbed(s) && Ordinary(op)
    ensures SimpleStep(Filesystem, s, op).1 == PlainStep(s.blobs, op).1
    ensures SimpleStep(Filesystem, s, op).0.blobs == PlainStep(s.blobs, op).0
    ensures Undisturbed(SimpleStep(Filesystem, s, op).0)
  {
    if op.List? {
      ListingIsPlain(s, op.t);
    }
    hide Entries, PlainEntries, Values, ValidTarget, IsShard;
  }

  ghost function RunPlain(m: Blobs, ops: seq<Op>): (Blobs, seq<Reply>)
    decreases ops
  {
    if ops == [] then (m, [])
    else
      var (next, reply) := PlainStep(m, ops[0]);
      var (end, replies) := RunPlain(next, ops[1..]);
      (end, [reply] + replies)
  }

  lemma {:induction false} RunIsPlain(s: Simple, ops: seq<Op>)
    requires Undisturbed(s) && forall i :: 0 <= i < |ops| ==> Ordinary(ops[i])
    ensures RunSimple(Filesystem, s, ops).1 == RunPlain(s.blobs, ops).1
    ensures RunSimple(Filesystem, s, ops).0.blobs == RunPlain(s.blobs, ops).0
    ensures Undisturbed(RunSimple(Filesystem, s, ops).0)
    decreases ops
  {
    hide Undisturbed, Ordinary, SimpleStep, PlainStep;
    if ops != [] {
      StepIsPlain(s, ops[0]);
      RunIsPlain(SimpleStep(Filesystem, s, ops[0]).0, ops[1..]);
    }
  }

  /** Every sequence of ordinary requests to an undisturbed repository, some of its blobs flat and some
      sharded, gets exactly the answers of the plain map of its blobs; the shards stay there. */
  lemma RunTreeIsPlain(tree: Tree, repo: Path, s: Simple, ops: seq<Op>)
    requires StandsFor(tree, repo, s) && Undisturbed(s) && forall i :: 0 <= i < |ops| ==> Ordinary(ops[i])
    ensures RunTree(tree, repo, ops).1 == RunPlain(s.blobs, ops).1
    ensures forall x :: IsShard(x) ==> Open(RunTree(tree, repo, ops).0, repo, x)
    ensures forall t, name :: ValidTarget(t, name) ==>
              Lookup(RunTree(tree, repo, ops).0, repo, t, name) == Find(RunPlain(s.blobs, ops).0, t, name)
  {
    RunIsPlain(s, ops);
    RunRefines(tree, repo, s, ops);
    var end, s' := RunTree(tree, repo, ops).0, RunSimple(Filesystem, s, ops).0;
    assert StandsFor(end, repo, s');
    hide RunTree, RunSimple, RunPlain, Shape, TempsAgree, Lookup, Open, ValidTarget;
  }
}
