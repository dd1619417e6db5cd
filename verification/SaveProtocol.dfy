/**
 Concurrent uploads on the filesystem backend as interleaved steps
 (internal/storage/filesystem/filesystem.go): look at both places, create a unique temporary file,
 copy, sync, close, rename. Any step may fail, a writer may crash, and blobs may be deleted by
 others at any time.
 */
module SaveProtocol {
  import opened Prelude
  import opened BlobNames
  import opened FileTree
  import opened FileBackend
  import opened BlobStore

  datatype Phase =
    | Validating | LookSharded | LookFlat | MakeDir | MakeTemp
    | Copying(chunks: nat) | Syncing | Closing | Renaming
    | Finished(ok: bool) | Crashed

  /** One SaveBlob call: its target and payload never change. */
  datatype Writer = Writer(t: string, name: string, chunks: seq<Bytes>, phase: Phase, temp: Path)

  /** The files, the shard directories that are there, and the uploads. */
  datatype State = State(files: map<Path, Bytes>, open: set<string>, writers: map<nat, Writer>)

  function FinalPath(repo: Path, w: Writer): Path {
    BlobPath(repo, w.t, w.name)
  }

  function Payload(w: Writer): Bytes {
    Concat(w.chunks)
  }

  predicate IsTemp(p: Path) {
    p != [] && TempName(NameOf(p))
  }

  /** A temporary file lies in the directory of the blob that it will become. */
  predicate TempBeside(repo: Path, t: string, name: string, temp: Path) {
    IsTemp(temp) && temp == Parent(BlobPath(repo, t, name)) + [NameOf(temp)]
  }

  /** The writer holds an open or closed temporary file. */
  predicate HasTemp(w: Writer) {
    w.phase.Copying? || w.phase.Syncing? || w.phase.Closing? || w.phase.Renaming?
  }

  /** The writer has found both places empty. */
  predicate Committed(w: Writer) {
    w.phase.MakeDir? || w.phase.MakeTemp? || HasTemp(w)
  }

  // ----- Steps

  datatype Step =
    | Start(id: nat, t: string, name: string, chunks: seq<Bytes>)
    | Validate(id: nat)
    | CheckSharded(id: nat)
    | CheckFlat(id: nat)
    | MakeDirectory(id: nat)
    | CreateTemp(id: nat, temp: Path)
    | CopyChunk(id: nat)
    | CopyEnd(id: nat)
    | Sync(id: nat)
    | Close(id: nat)
    | Rename(id: nat)
    | Fail(id: nat)
    | Crash(id: nat)
    | Remove(t: string, name: string, flat: bool)
    | MakeShard(shard: string)
    | RemoveShard(shard: string)

  /** The shard directory of the target, if it needs one, is there. */
  predicate HasDirectory(s: State, t: string, name: string) {
    HasFallback(t, name) ==> name[..2] in s.open
  }

  /** A writer can fail at every step from the making of the directory on. Beside the uploads, blobs
      are deleted, the creation of the repository makes shard directories, and a deletion under the
      name of an empty shard directory removes it. */
  ghost predicate Enabled(repo: Path, s: State, step: Step) {
    match step
    case Start(id, t, name, chunks) => id !in s.writers && ValidTarget(t, name)
    case Validate(id) => id in s.writers && s.writers[id].phase == Validating
    case CheckSharded(id) => id in s.writers && s.writers[id].phase == LookSharded
    case CheckFlat(id) => id in s.writers && s.writers[id].phase == LookFlat
    case MakeDirectory(id) => id in s.writers && s.writers[id].phase == MakeDir
    case CreateTemp(id, temp) =>
      && id in s.writers && s.writers[id].phase == MakeTemp
      && HasDirectory(s, s.writers[id].t, s.writers[id].name)
      && TempBeside(repo, s.writers[id].t, s.writers[id].name, temp) && temp !in s.files
    case CopyChunk(id) =>
      id in s.writers && s.writers[id].phase.Copying? && s.writers[id].phase.chunks < |s.writers[id].chunks|
      && s.writers[id].temp in s.files
    case CopyEnd(id) => id in s.writers && s.writers[id].phase == Copying(|s.writers[id].chunks|)
    case Sync(id) => id in s.writers && s.writers[id].phase == Syncing
    case Close(id) => id in s.writers && s.writers[id].phase == Closing
    case Rename(id) => id in s.writers && s.writers[id].phase == Renaming && s.writers[id].temp in s.files
    case Fail(id) => id in s.writers && Committed(s.writers[id])
    case Crash(id) => id in s.writers && !s.writers[id].phase.Finished?
    case Remove(t, name, _) => ValidTarget(t, name)
    case MakeShard(x) => IsShard(x)
    case RemoveShard(x) => x in s.open && forall name :: At(repo, "data", [x, name]) !in s.files
  }

  function To(s: State, id: nat, phase: Phase): State
    requires id in s.writers
  {
    s.(writers := s.writers[id := s.writers[id].(phase := phase)])
  }

  ghost function After(repo: Path, s: State, step: Step): State
    requires Enabled(repo, s, step)
  {
    match step
    case Start(id, t, name, chunks) => s.(writers := s.writers[id := Writer(t, name, chunks, Validating, [])])
    case Validate(id) =>
      To(s, id, if HasDirectory(s, s.writers[id].t, s.writers[id].name) then LookSharded else Finished(false))
    case CheckSharded(id) =>
      var w := s.writers[id];
      To(s, id, if FinalPath(repo, w) in s.files then Finished(true)
                else if HasFallback(w.t, w.name) then LookFlat else MakeDir)
    case CheckFlat(id) =>
      To(s, id, if FindsFlat(repo, s, s.writers[id]) then Finished(true) else MakeDir)
    case MakeDirectory(id) =>
      var w := s.writers[id];
      To(s, id, MakeTemp).(open := if HasFallback(w.t, w.name) then s.open + {w.name[..2]} else s.open)
    case CreateTemp(id, temp) =>
      s.(files := s.files[temp := []],
         writers := s.writers[id := s.writers[id].(phase := Copying(0), temp := temp)])
    case CopyChunk(id) =>
      var w := s.writers[id];
      var k := w.phase.chunks;
      To(s.(files := s.files[w.temp := s.files[w.temp] + w.chunks[k]]), id, Copying(k + 1))
    case CopyEnd(id) => To(s, id, Syncing)
    case Sync(id) => To(s, id, Closing)
    case Close(id) => To(s, id, Renaming)
    case Rename(id) =>
      var w := s.writers[id];
      To(s.(files := (s.files - {w.temp})[FinalPath(repo, w) := s.files[w.temp]]), id, Finished(true))
    case Fail(id) =>
      var w := s.writers[id];
      To(s.(files := if HasTemp(w) then s.files - {w.temp} else s.files), id, Finished(false))
    case Crash(id) => To(s, id, Crashed)
    case Remove(t, name, flat) =>
      s.(files := s.files - {if flat then FlatPath(repo, name) else BlobPath(repo, t, name)})
    case MakeShard(x) => s.(open := s.open + {x})
    case RemoveShard(x) => s.(open := s.open - {x})
  }

  /** Under the flat path there is a blob, or the shard directory of that name. */
  predicate FindsFlat(repo: Path, s: State, w: Writer) {
    FlatPath(repo, w.name) in s.files || (Collides(w.t, w.name) && w.name in s.open)
  }

  // ----- The invariant

  /** What the temporary file of a writer holds. */
  function Copied(w: Writer): Bytes {
    if w.phase.Copying? && w.phase.chunks <= |w.chunks| then Concat(w.chunks[..w.phase.chunks]) else Payload(w)
  }

  ghost predicate WriterOk(repo: Path, s: State, id: nat)
    requires id in s.writers
  {
    var w := s.writers[id];
    && ValidTarget(w.t, w.name)
    && (w.phase.LookFlat? ==> HasFallback(w.t, w.name))
    && (w.phase.Copying? ==> w.phase.chunks <= |w.chunks|)
    && (w.temp != [] ==> TempBeside(repo, w.t, w.name, w.temp))
    && (HasTemp(w) ==> IsTemp(w.temp) && w.temp in s.files && s.files[w.temp] == Copied(w))
    && (Committed(w) && HasFallback(w.t, w.name) ==> FlatPath(repo, w.name) !in s.files)
  }

  ghost predicate WritersOk(repo: Path, s: State) {
    && (forall id :: id in s.writers ==> WriterOk(repo, s, id))
    && (forall i, j :: i in s.writers && j in s.writers && i != j && HasTemp(s.writers[i]) && HasTemp(s.writers[j]) ==>
          s.writers[i].temp != s.writers[j].temp)
  }

  /** The file at p came there whole, from a writer that finished. */
  ghost predicate WrittenWhole(repo: Path, s: State, p: Path)
    requires p in s.files
  {
    exists id :: id in s.writers && s.writers[id].phase == Finished(true) && FinalPath(repo, s.writers[id]) == p
              && s.files[p] == Payload(s.writers[id])
  }

  /** The temporary file p belongs to a writer that is still at work or has crashed. */
  ghost predicate Owned(s: State, p: Path) {
    exists id :: id in s.writers && s.writers[id].temp == p && (HasTemp(s.writers[id]) || s.writers[id].phase.Crashed?)
  }

  /** Every file is as it was at the start, or whole, or an owned temporary file. */
  ghost predicate FilesOk(repo: Path, s: State, start: map<Path, Bytes>) {
    forall p :: p in s.files ==>
      (p in start && s.files[p] == start[p]) || (!IsTemp(p) && WrittenWhole(repo, s, p)) || (IsTemp(p) && Owned(s, p))
  }

  ghost predicate NeverBoth(repo: Path, files: map<Path, Bytes>) {
    forall name :: ValidTarget("data", name) && HasFallback("data", name) ==>
      !(BlobPath(repo, "data", name) in files && FlatPath(repo, name) in files)
  }

  ghost predicate Inv(repo: Path, s: State, start: map<Path, Bytes>) {
    WritersOk(repo, s) && FilesOk(repo, s, start) && NeverBoth(repo, s.files)
  }

  lemma BlobPathsAreNotTemp(repo: Path, t: string, name: string)
    requires ValidTarget(t, name)
    ensures !IsTemp(BlobPath(repo, t, name)) && !IsTemp(FlatPath(repo, name))
  {
    assert NameOf(BlobPath(repo, t, name)) == name && NameOf(FlatPath(repo, name)) == name;
    BlobNamesAreNotTemp(name);
  }

  // ----- Every step keeps the invariant

  /** A step of one unfinished writer that writes to no file, and removes none but its own. */
  ghost predicate Quiet(s: State, s': State, id: nat) {
    && id in s.writers && !s.writers[id].phase.Finished? && s'.writers.Keys == s.writers.Keys
    && s'.writers[id] == s.writers[id].(phase := s'.writers[id].phase)
    && (forall j :: j in s.writers && j != id ==> s'.writers[j] == s.writers[j])
    && (forall p :: p in s'.files ==> p in s.files && s'.files[p] == s.files[p])
    && (forall p :: p in s.files && p !in s'.files ==> HasTemp(s.writers[id]) && p == s.writers[id].temp)
    && (HasTemp(s.writers[id]) || s.writers[id].phase.Crashed? ==>
          HasTemp(s'.writers[id]) || s'.writers[id].phase.Crashed? || s.writers[id].temp !in s'.files)
  }

  lemma QuietWriters(repo: Path, s: State, s': State, id: nat)
    requires WritersOk(repo, s) && Quiet(s, s', id) && WriterOk(repo, s', id)
    requires HasTemp(s'.writers[id]) ==> HasTemp(s.writers[id])
    ensures WritersOk(repo, s')
  {
    hide IsTemp, TempBeside, ValidTarget, Copied, HasTemp, Committed, HasFallback;
    forall j | j in s'.writers
      ensures WriterOk(repo, s', j)
    {
      assert WriterOk(repo, s, j) && WriterOk(repo, s, id);
      if j != id && HasTemp(s.writers[j]) && HasTemp(s.writers[id]) {
        assert s.writers[j].temp != s.writers[id].temp;
      }
    }
  }

  lemma QuietFiles(repo: Path, s: State, s': State, start: map<Path, Bytes>, id: nat)
    requires FilesOk(repo, s, start) && Quiet(s, s', id)
    ensures FilesOk(repo, s', start)
  {
    forall p | p in s'.files
      ensures WrittenWhole(repo, s, p) ==> WrittenWhole(repo, s', p)
      ensures Owned(s, p) ==> Owned(s', p)
    {
      WholeStays(repo, s, s', id, p);
      OwnedStays(s, s', id, p);
    }
    hide WrittenWhole, Owned, IsTemp, Quiet;
    assert forall p :: p in s'.files ==> p in s.files && s'.files[p] == s.files[p] by { QuietShrinks(s, s', id); }
  }

  lemma QuietShrinks(s: State, s': State, id: nat)
    requires Quiet(s, s', id)
    ensures forall p :: p in s'.files ==> p in s.files && s'.files[p] == s.files[p]
  {
  }

  lemma QuietKeepsInv(repo: Path, s: State, s': State, start: map<Path, Bytes>, id: nat)
    requires Inv(repo, s, start) && Quiet(s, s', id) && WriterOk(repo, s', id)
    requires HasTemp(s'.writers[id]) ==> HasTemp(s.writers[id])
    ensures Inv(repo, s', start)
  {
    hide WritersOk, FilesOk, WriterOk, HasTemp;
    QuietWriters(repo, s, s', id);
    QuietFiles(repo, s, s', start, id);
    QuietShrinks(s, s', id);
  }

  lemma WholeStays(repo: Path, s: State, s': State, id: nat, p: Path)
    requires p in s.files && p in s'.files && s.files[p] == s'.files[p]
    requires id in s.writers && !s.writers[id].phase.Finished?
    requires forall j :: j in s.writers && j != id ==> j in s'.writers && s'.writers[j] == s.writers[j]
    ensures WrittenWhole(repo, s, p) ==> WrittenWhole(repo, s', p)
  {
    if WrittenWhole(repo, s, p) {
      var j :| j in s.writers && s.writers[j].phase == Finished(true) && FinalPath(repo, s.writers[j]) == p
               && s.files[p] == Payload(s.writers[j]);
      assert j in s'.writers && s'.writers[j] == s.writers[j];
    }
  }

  lemma OwnedStays(s: State, s': State, id: nat, p: Path)
    requires id in s.writers && id in s'.writers
    requires forall j :: j in s.writers && j != id ==> j in s'.writers && s'.writers[j] == s.writers[j]
    requires s.writers[id].temp == p && (HasTemp(s.writers[id]) || s.writers[id].phase.Crashed?) ==>
               s'.writers[id].temp == p && (HasTemp(s'.writers[id]) || s'.writers[id].phase.Crashed?)
    ensures Owned(s, p) ==> Owned(s', p)
  {
    if Owned(s, p) {
      var j :| j in s.writers && s.writers[j].temp == p && (HasTemp(s.writers[j]) || s.writers[j].phase.Crashed?);
      assert j in s'.writers;
    }
  }

  lemma StartKeepsInv(repo: Path, s: State, start: map<Path, Bytes>, id: nat, w: Writer)
    requires Inv(repo, s, start) && id !in s.writers
    requires ValidTarget(w.t, w.name) && w.phase == Validating && w.temp == []
    ensures Inv(repo, s.(writers := s.writers[id := w]), start)
  {
    hide FilesOk, NeverBoth;
    StartKeepsFiles(repo, s, start, id, w);
    hide IsTemp, TempBeside, ValidTarget, Payload, Copied;
    var s' := s.(writers := s.writers[id := w]);
    forall j | j in s'.writers
      ensures WriterOk(repo, s', j)
    {
      assert j != id ==> WriterOk(repo, s, j);
    }
  }

  lemma StartKeepsFiles(repo: Path, s: State, start: map<Path, Bytes>, id: nat, w: Writer)
    requires FilesOk(repo, s, start) && id !in s.writers
    ensures FilesOk(repo, s.(writers := s.writers[id := w]), start)
  {
    var s' := s.(writers := s.writers[id := w]);
    forall p | p in s'.files
      ensures WrittenWhole(repo, s, p) ==> WrittenWhole(repo, s', p)
      ensures Owned(s, p) ==> Owned(s', p)
    {
      if WrittenWhole(repo, s, p) {
        var j :| j in s.writers && s.writers[j].phase == Finished(true) && FinalPath(repo, s.writers[j]) == p
                 && s.files[p] == Payload(s.writers[j]);
        assert s'.writers[j] == s.writers[j];
      }
      if Owned(s, p) {
        var j :| j in s.writers && s.writers[j].temp == p && (HasTemp(s.writers[j]) || s.writers[j].phase.Crashed?);
        assert s'.writers[j] == s.writers[j];
      }
    }
    hide WrittenWhole, Owned, IsTemp;
  }

  /** The next record of a writer that writes to its temporary file: a new file, or more of it. */
  ghost predicate TempWrite(repo: Path, s: State, id: nat, w: Writer, data: Bytes) {
    && id in s.writers && Committed(s.writers[id])
    && TempBeside(repo, w.t, w.name, w.temp) && HasTemp(w) && data == Copied(w)
    && (if HasTemp(s.writers[id]) then w.temp == s.writers[id].temp else w.temp !in s.files)
    && w == s.writers[id].(phase := w.phase, temp := w.temp)
    && (w.phase.Copying? ==> w.phase.chunks <= |w.chunks|)
  }

  lemma TempWriteWriters(repo: Path, s: State, id: nat, w: Writer, data: Bytes)
    requires WritersOk(repo, s) && TempWrite(repo, s, id, w, data)
    ensures WritersOk(repo, s.(files := s.files[w.temp := data], writers := s.writers[id := w]))
  {
    hide IsTemp, ValidTarget;
    var s' := s.(files := s.files[w.temp := data], writers := s.writers[id := w]);
    forall j | j in s'.writers
      ensures WriterOk(repo, s', j)
    {
      assert WriterOk(repo, s, j) && WriterOk(repo, s, id);
      BlobPathsAreNotTemp(repo, s.writers[j].t, s.writers[j].name);
    }
    forall i, j | i in s'.writers && j in s'.writers && i != j && HasTemp(s'.writers[i]) && HasTemp(s'.writers[j])
      ensures s'.writers[i].temp != s'.writers[j].temp
    {
      assert WriterOk(repo, s, i) && WriterOk(repo, s, j);
    }
  }

  lemma TempWriteFiles(repo: Path, s: State, start: map<Path, Bytes>, id: nat, w: Writer, data: Bytes)
    requires FilesOk(repo, s, start) && TempWrite(repo, s, id, w, data)
    ensures FilesOk(repo, s.(files := s.files[w.temp := data], writers := s.writers[id := w]), start)
  {
    hide IsTemp, ValidTarget, Copied;
    var s' := s.(files := s.files[w.temp := data], writers := s.writers[id := w]);
    forall p | p in s'.files
      ensures (p in start && s'.files[p] == start[p]) || (!IsTemp(p) && WrittenWhole(repo, s', p))
          || (IsTemp(p) && Owned(s', p))
    {
      if p == w.temp {
        assert s'.writers[id].temp == p;
      } else {
        WholeStays(repo, s, s', id, p);
        OwnedStays(s, s', id, p);
      }
    }
  }

  /** Writing to the temporary file of one writer, at its creation or for a further chunk. */
  lemma TempWriteKeepsInv(repo: Path, s: State, start: map<Path, Bytes>, id: nat, w: Writer, data: Bytes)
    requires Inv(repo, s, start) && TempWrite(repo, s, id, w, data)
    ensures Inv(repo, s.(files := s.files[w.temp := data], writers := s.writers[id := w]), start)
  {
    hide WritersOk, FilesOk;
    TempWriteWriters(repo, s, id, w, data);
    TempWriteFiles(repo, s, start, id, w, data);
    forall name | ValidTarget("data", name) && HasFallback("data", name)
      ensures BlobPath(repo, "data", name) != w.temp && FlatPath(repo, name) != w.temp
    {
      BlobPathsAreNotTemp(repo, "data", name);
    }
  }

  /** Files may disappear as long as no writer at work loses its temporary file. */
  lemma RemovalKeepsInv(repo: Path, s: State, start: map<Path, Bytes>, gone: Path)
    requires Inv(repo, s, start)
    requires forall j :: j in s.writers && HasTemp(s.writers[j]) ==> s.writers[j].temp != gone
    ensures Inv(repo, s.(files := s.files - {gone}), start)
  {
    var s' := s.(files := s.files - {gone});
    forall j | j in s'.writers
      ensures WriterOk(repo, s', j)
    {
      assert WriterOk(repo, s, j);
    }
    forall p | p in s'.files
      ensures (p in start && s'.files[p] == start[p]) || (!IsTemp(p) && WrittenWhole(repo, s', p))
          || (IsTemp(p) && Owned(s', p))
    {
      assert WrittenWhole(repo, s, p) ==> WrittenWhole(repo, s', p);
      assert Owned(s, p) ==> Owned(s', p);
    }
  }

  /** A writer gives up: its temporary file is removed with it. */
  lemma FailKeepsInv(repo: Path, s: State, start: map<Path, Bytes>, id: nat)
    requires Inv(repo, s, start) && Enabled(repo, s, Fail(id))
    ensures Inv(repo, After(repo, s, Fail(id)), start)
  {
    hide FilesOk, NeverBoth, IsTemp, TempBeside, ValidTarget;
    assert WriterOk(repo, s, id);
    QuietKeepsInv(repo, s, After(repo, s, Fail(id)), start, id);
  }

  lemma RenameWriters(repo: Path, s: State, id: nat)
    requires WritersOk(repo, s) && Enabled(repo, s, Rename(id))
    ensures WritersOk(repo, After(repo, s, Rename(id)))
  {
    hide IsTemp, ValidTarget, TempBeside, Copied, Place, BlobPath, FlatPath;
    var s' := After(repo, s, Rename(id));
    var w := s.writers[id];
    assert WriterOk(repo, s, id);
    BlobPathsAreNotTemp(repo, w.t, w.name);
    forall j | j in s'.writers
      ensures WriterOk(repo, s', j)
    {
      assert WriterOk(repo, s, j);
      var v := s.writers[j];
      BlobPathsAreNotTemp(repo, v.t, v.name);
      if HasFallback(v.t, v.name) {
        FinalIsNotFlat(repo, w.t, w.name, v.name);
      }
    }
  }

  /** No blob with a shard is stored at a flat path. */
  lemma FinalIsNotFlat(repo: Path, t: string, name: string, other: string)
    requires HasFallback("data", other)
    ensures BlobPath(repo, t, name) != FlatPath(repo, other)
  {
    if t == "data" && name == other {
      AtInjective(repo, "data", [name[..2], name], "data", [other]);
    } else {
      PlacesDiffer(repo, t, name, "data", other);
    }
  }

  lemma RenameFiles(repo: Path, s: State, start: map<Path, Bytes>, id: nat)
    requires Inv(repo, s, start) && Enabled(repo, s, Rename(id))
    ensures FilesOk(repo, After(repo, s, Rename(id)), start)
  {
    hide IsTemp, ValidTarget;
    var s' := After(repo, s, Rename(id));
    var w := s.writers[id];
    assert WriterOk(repo, s, id);
    BlobPathsAreNotTemp(repo, w.t, w.name);
    forall p | p in s'.files
      ensures (p in start && s'.files[p] == start[p]) || (!IsTemp(p) && WrittenWhole(repo, s', p))
          || (IsTemp(p) && Owned(s', p))
    {
      if p == FinalPath(repo, w) {
        assert s'.writers[id].phase == Finished(true) && FinalPath(repo, s'.writers[id]) == p;
      } else {
        WholeStays(repo, s, s', id, p);
        OwnedStays(s, s', id, p);
      }
    }
  }

  lemma RenameKeepsInv(repo: Path, s: State, start: map<Path, Bytes>, id: nat)
    requires Inv(repo, s, start) && Enabled(repo, s, Rename(id))
    ensures Inv(repo, After(repo, s, Rename(id)), start)
  {
    hide WritersOk, FilesOk, NeverBoth, IsTemp;
    RenameWriters(repo, s, id);
    RenameFiles(repo, s, start, id);
    RenameNeverBoth(repo, s, id);
  }

  lemma RenameNeverBoth(repo: Path, s: State, id: nat)
    requires WritersOk(repo, s) && NeverBoth(repo, s.files) && Enabled(repo, s, Rename(id))
    ensures NeverBoth(repo, After(repo, s, Rename(id)).files)
  {
    hide WritersOk, IsTemp;
    var w := s.writers[id];
    var s' := After(repo, s, Rename(id));
    forall name | ValidTarget("data", name) && HasFallback("data", name)
      ensures !(BlobPath(repo, "data", name) in s'.files && FlatPath(repo, name) in s'.files)
    {
      FinalIsNotFlat(repo, w.t, w.name, name);
      if BlobPath(repo, "data", name) == FinalPath(repo, w) {
        RenamedHadNoFlat(repo, s, id, name);
      }
    }
  }

  /** When a writer is about to rename, the flat place of its name is empty. */
  lemma RenamedHadNoFlat(repo: Path, s: State, id: nat, name: string)
    requires WritersOk(repo, s) && id in s.writers && s.writers[id].phase.Renaming?
    requires BlobPath(repo, "data", name) == FinalPath(repo, s.writers[id]) && HasFallback("data", name)
    ensures FlatPath(repo, name) !in s.files
  {
    var w := s.writers[id];
    assert WriterOk(repo, s, id);
    if (w.t, w.name) != ("data", name) {
      PlacesDiffer(repo, w.t, w.name, "data", name);
    }
  }

  lemma StepKeepsInv(repo: Path, s: State, start: map<Path, Bytes>, step: Step)
    requires Inv(repo, s, start) && Enabled(repo, s, step)
    ensures Inv(repo, After(repo, s, step), start)
  {
    match step
    case Start(id, t, name, chunks) => StartKeepsInv(repo, s, start, id, Writer(t, name, chunks, Validating, []));
    case CreateTemp(id, temp) =>
      TempWriteKeepsInv(repo, s, start, id, s.writers[id].(phase := Copying(0), temp := temp), []);
    case CopyChunk(id) => CopyKeepsInv(repo, s, start, id);
    case Rename(id) => RenameKeepsInv(repo, s, start, id);
    case Fail(id) => FailKeepsInv(repo, s, start, id);
    case Remove(t, name, flat) => RemoveKeepsInv(repo, s, start, t, name, flat);
    case MakeShard(x) => ShardsKeepInv(repo, s, start, s.open + {x});
    case RemoveShard(x) => ShardsKeepInv(repo, s, start, s.open - {x});
    case _ => PhaseStepKeepsInv(repo, s, start, step);
  }

  /** The invariant is one of the files; shard directories come and go. */
  lemma ShardsKeepInv(repo: Path, s: State, start: map<Path, Bytes>, open: set<string>)
    requires Inv(repo, s, start)
    ensures Inv(repo, s.(open := open), start)
  {
    var s' := s.(open := open);
    forall id | id in s'.writers
      ensures WriterOk(repo, s', id)
    {
      assert WriterOk(repo, s, id);
    }
    forall p | p in s'.files
      ensures WrittenWhole(repo, s, p) ==> WrittenWhole(repo, s', p)
      ensures Owned(s, p) ==> Owned(s', p)
    {
    }
    hide WrittenWhole, Owned, IsTemp;
  }

  lemma CopyKeepsInv(repo: Path, s: State, start: map<Path, Bytes>, id: nat)
    requires Inv(repo, s, start) && Enabled(repo, s, CopyChunk(id))
    ensures Inv(repo, After(repo, s, CopyChunk(id)), start)
  {
    var w := s.writers[id];
    var k := w.phase.chunks;
    assert WriterOk(repo, s, id);
    ConcatPrefix(w.chunks, k);
    TempWriteKeepsInv(repo, s, start, id, w.(phase := Copying(k + 1)), s.files[w.temp] + w.chunks[k]);
  }

  lemma RemoveKeepsInv(repo: Path, s: State, start: map<Path, Bytes>, t: string, name: string, flat: bool)
    requires Inv(repo, s, start) && ValidTarget(t, name)
    ensures Inv(repo, After(repo, s, Remove(t, name, flat)), start)
  {
    BlobPathsAreNotTemp(repo, t, name);
    var gone := if flat then FlatPath(repo, name) else BlobPath(repo, t, name);
    forall j | j in s.writers && HasTemp(s.writers[j])
      ensures s.writers[j].temp != gone
    {
      assert WriterOk(repo, s, j);
    }
    RemovalKeepsInv(repo, s, start, gone);
  }

  predicate PhaseStep(step: Step) {
    || step.Validate? || step.CheckSharded? || step.CheckFlat? || step.MakeDirectory?
    || step.CopyEnd? || step.Sync? || step.Close? || step.Crash?
  }

  lemma PhaseStepKeepsInv(repo: Path, s: State, start: map<Path, Bytes>, step: Step)
    requires Inv(repo, s, start) && Enabled(repo, s, step) && PhaseStep(step)
    ensures Inv(repo, After(repo, s, step), start)
  {
    hide FilesOk, NeverBoth, Enabled, After, WriterOk, HasTemp, Quiet;
    var phase := PhaseStepIsTo(repo, s, step);
    PhaseChangeIsQuiet(s, step.id, phase, After(repo, s, step).open);
    QuietKeepsInv(repo, s, After(repo, s, step), start, step.id);
  }

  /** Such a step moves one writer to another phase and keeps its temporary file. */
  lemma PhaseStepIsTo(repo: Path, s: State, step: Step) returns (phase: Phase)
    requires WritersOk(repo, s) && Enabled(repo, s, step) && PhaseStep(step)
    ensures step.id in s.writers && !s.writers[step.id].phase.Finished?
    ensures After(repo, s, step) == To(s, step.id, phase).(open := After(repo, s, step).open)
    ensures WriterOk(repo, After(repo, s, step), step.id)
    ensures HasTemp(s.writers[step.id].(phase := phase)) ==> HasTemp(s.writers[step.id])
    ensures HasTemp(s.writers[step.id]) || s.writers[step.id].phase.Crashed? ==>
              HasTemp(s.writers[step.id].(phase := phase)) || phase.Crashed?
  {
    hide IsTemp, TempBeside, ValidTarget, HasDirectory, FinalPath, Collides;
    var w := s.writers[step.id];
    assert WriterOk(repo, s, step.id);
    assert w.chunks[..|w.chunks|] == w.chunks;
    phase := After(repo, s, step).writers[step.id].phase;
  }

  lemma PhaseChangeIsQuiet(s: State, id: nat, phase: Phase, open: set<string>)
    requires id in s.writers && !s.writers[id].phase.Finished?
    requires HasTemp(s.writers[id]) || s.writers[id].phase.Crashed? ==>
               HasTemp(s.writers[id].(phase := phase)) || phase.Crashed?
    ensures Quiet(s, To(s, id, phase).(open := open), id)
  {
  }

  // ----- The shard directories

  /** What lies in a shard lies in a directory, and shard directories are named by hex digits. */
  ghost predicate OpenOk(repo: Path, s: State) {
    && (forall x :: x in s.open ==> HexPair(x))
    && (forall x, name :: At(repo, "data", [x, name]) in s.files ==> x in s.open)
  }

  lemma InShardOf(repo: Path, t: string, name: string, p: Path, x: string, other: string)
    requires p != [] && Parent(p) == Parent(BlobPath(repo, t, name)) && p == At(repo, "data", [x, other])
    ensures HasFallback(t, name) && x == name[..2]
  {
    ParentOfPlace(repo, t, name);
    assert Parent(p) == At(repo, "data", [x]);
    AtInjective(repo, "data", [x], t, if HasFallback(t, name) then [name[..2]] else []);
  }

  /** A file that comes lies beside the blob of a target whose directory is there. */
  lemma NewFileKeepsOpen(repo: Path, s: State, s': State, t: string, name: string, p: Path)
    requires OpenOk(repo, s) && HasDirectory(s, t, name) && s'.open == s.open
    requires p != [] && Parent(p) == Parent(BlobPath(repo, t, name))
    requires forall q :: q in s'.files ==> q in s.files || q == p
    ensures OpenOk(repo, s')
  {
    forall x, other | At(repo, "data", [x, other]) in s'.files
      ensures x in s'.open
    {
      if At(repo, "data", [x, other]) !in s.files {
        InShardOf(repo, t, name, p, x, other);
      }
    }
  }

  lemma TempHasDirectory(repo: Path, s: State, t: string, name: string, temp: Path)
    requires OpenOk(repo, s) && TempBeside(repo, t, name, temp) && temp in s.files
    ensures HasDirectory(s, t, name) && Parent(temp) == Parent(BlobPath(repo, t, name))
  {
    ParentOfPlace(repo, t, name);
    if HasFallback(t, name) {
      assert temp == At(repo, "data", [name[..2], NameOf(temp)]);
    }
  }

  lemma StepKeepsOpen(repo: Path, s: State, step: Step)
    requires WritersOk(repo, s) && OpenOk(repo, s) && Enabled(repo, s, step)
    ensures OpenOk(repo, After(repo, s, step))
  {
    hide ValidTarget, IsTemp, WritersOk;
    match step
    case CreateTemp(id, temp) =>
      hide OpenOk, HasDirectory;
      var w := s.writers[id];
      assert Parent(temp) == Parent(BlobPath(repo, w.t, w.name)) by { BesideParent(repo, w.t, w.name, temp); }
      NewFileKeepsOpen(repo, s, After(repo, s, step), w.t, w.name, temp);
    case Rename(id) =>
      hide OpenOk, HasDirectory;
      var w := s.writers[id];
      WriterFacts(repo, s, id);
      TempHasDirectory(repo, s, w.t, w.name, w.temp);
      NewFileKeepsOpen(repo, s, After(repo, s, step), w.t, w.name, FinalPath(repo, w));
    case MakeDirectory(id) =>
      WriterFacts(repo, s, id);
      BlobNamesAreNotTemp(s.writers[id].name);
    case _ =>
  }

  lemma BesideParent(repo: Path, t: string, name: string, temp: Path)
    requires TempBeside(repo, t, name, temp)
    ensures Parent(temp) == Parent(BlobPath(repo, t, name))
  {
  }

  lemma WriterFacts(repo: Path, s: State, id: nat)
    requires WritersOk(repo, s) && id in s.writers
    ensures ValidBlobName(s.writers[id].name)
    ensures s.writers[id].temp != [] ==> TempBeside(repo, s.writers[id].t, s.writers[id].name, s.writers[id].temp)
    ensures HasTemp(s.writers[id]) ==> s.writers[id].temp != []
  {
    assert WriterOk(repo, s, id);
  }

  // ----- Whole runs

  ghost predicate Legal(repo: Path, s: State, steps: seq<Step>)
    decreases steps
  {
    steps == [] || (Enabled(repo, s, steps[0]) && Legal(repo, After(repo, s, steps[0]), steps[1..]))
  }

  ghost function End(repo: Path, s: State, steps: seq<Step>): State
    requires Legal(repo, s, steps)
    decreases steps
  {
    if steps == [] then s else End(repo, After(repo, s, steps[0]), steps[1..])
  }

  lemma {:induction false} RunKeepsInv(repo: Path, s: State, start: map<Path, Bytes>, steps: seq<Step>)
    requires Inv(repo, s, start) && Legal(repo, s, steps)
    ensures Inv(repo, End(repo, s, steps), start)
    decreases steps
  {
    if steps != [] {
      hide Inv, Enabled, After;
      StepKeepsInv(repo, s, start, steps[0]);
      RunKeepsInv(repo, After(repo, s, steps[0]), start, steps[1..]);
    }
  }

  lemma {:induction false} RunKeepsOpen(repo: Path, s: State, start: map<Path, Bytes>, steps: seq<Step>)
    requires Inv(repo, s, start) && OpenOk(repo, s) && Legal(repo, s, steps)
    ensures OpenOk(repo, End(repo, s, steps))
    decreases steps
  {
    if steps != [] {
      assert WritersOk(repo, s);
      hide Inv, Enabled, After, OpenOk, WritersOk;
      StepKeepsInv(repo, s, start, steps[0]);
      StepKeepsOpen(repo, s, steps[0]);
      RunKeepsOpen(repo, After(repo, s, steps[0]), start, steps[1..]);
    }
  }

  /** In every interleaving of uploads, failures, crashes and deletions: a blob's place is empty, or
      holds what was there at the start, or one writer's complete payload; no data blob is in both
      places; and every temporary file that was not there at the start belongs to a writer that is
      still at work or has crashed, so a failure that is no crash leaves none behind. */
  lemma EveryInterleaving(repo: Path, start: map<Path, Bytes>, open: set<string>, steps: seq<Step>,
                          t: string, name: string)
    requires NeverBoth(repo, start) && Legal(repo, State(start, open, map[]), steps) && ValidTarget(t, name)
    ensures var s := End(repo, State(start, open, map[]), steps); var p := BlobPath(repo, t, name);
      && (p in s.files ==> (p in start && s.files[p] == start[p]) || WrittenWhole(repo, s, p))
      && (HasFallback(t, name) ==> !(p in s.files && FlatPath(repo, name) in s.files))
      && (forall q :: q in s.files && IsTemp(q) && q !in start ==> Owned(s, q))
  {
    RunKeepsInv(repo, State(start, open, map[]), start, steps);
    BlobPathsAreNotTemp(repo, t, name);
  }

  // ----- Runs without deletions

  predicate SameTarget(v: Writer, w: Writer) {
    v.t == w.t && v.name == w.name
  }

  /** Names are content hashes: uploads of one name carry the same bytes. */
  ghost predicate SameBytes(s: State) {
    forall i, j :: i in s.writers && j in s.writers && SameTarget(s.writers[i], s.writers[j]) ==>
      Payload(s.writers[i]) == Payload(s.writers[j])
  }

  ghost predicate NoRemoval(steps: seq<Step>) {
    forall i :: 0 <= i < |steps| ==> !steps[i].Remove?
  }

  /** The blob of a writer is somewhere. */
  predicate Stored(repo: Path, s: State, w: Writer) {
    FinalPath(repo, w) in s.files || (HasFallback(w.t, w.name) && FlatPath(repo, w.name) in s.files)
  }

  /** The writer has reported success, other than for finding a shard directory. */
  predicate Acknowledging(w: Writer) {
    w.phase == Finished(true) && !Collides(w.t, w.name)
  }

  /** The writer has found the sharded place empty. */
  predicate Passed(w: Writer) {
    w.phase.LookFlat? || Committed(w)
  }

  /** What no deletion disturbs: the blobs of the start are still there, no writer is on the way to
      replace one of them, and every acknowledged blob is stored. */
  ghost predicate Settled(repo: Path, s: State, start: map<Path, Bytes>) {
    && (forall p :: p in start && !IsTemp(p) ==> p in s.files && s.files[p] == start[p])
    && (forall id :: id in s.writers && Passed(s.writers[id]) ==> FinalPath(repo, s.writers[id]) !in start)
    && (forall id :: id in s.writers && Acknowledging(s.writers[id]) ==> Stored(repo, s, s.writers[id]))
  }

  /** All blobs stay, with their bytes. */
  ghost predicate BlobsStay(a: map<Path, Bytes>, b: map<Path, Bytes>) {
    forall p :: p in a && !IsTemp(p) ==> p in b && b[p] == a[p]
  }

  lemma RenameStays(repo: Path, s: State, start: map<Path, Bytes>, id: nat)
    requires Inv(repo, s, start) && Settled(repo, s, start) && Enabled(repo, s, Rename(id)) && SameBytes(s)
    ensures BlobsStay(s.files, After(repo, s, Rename(id)).files)
  {
    var w := s.writers[id];
    var p := FinalPath(repo, w);
    assert WriterOk(repo, s, id);
    BlobPathsAreNotTemp(repo, w.t, w.name);
    assert Passed(w) ==> p !in start;
    assert p in s.files && p !in start ==> WrittenWhole(repo, s, p);
    WholeIsPayloadIf(repo, s, id);
    assert Copied(w) == Payload(w);
    hide *;
    RenameReplaces(repo, s, id);
  }

  lemma WholeIsPayloadIf(repo: Path, s: State, id: nat)
    requires SameBytes(s) && id in s.writers
    ensures var p := FinalPath(repo, s.writers[id]);
      p in s.files && WrittenWhole(repo, s, p) ==> s.files[p] == Payload(s.writers[id])
  {
    if FinalPath(repo, s.writers[id]) in s.files {
      WholeIsPayload(repo, s, id);
    }
  }

  lemma RenameReplaces(repo: Path, s: State, id: nat)
    requires Enabled(repo, s, Rename(id)) && IsTemp(s.writers[id].temp)
    requires var p := FinalPath(repo, s.writers[id]); p in s.files ==> s.files[p] == s.files[s.writers[id].temp]
    ensures BlobsStay(s.files, After(repo, s, Rename(id)).files)
  {
  }

  lemma StepStays(repo: Path, s: State, start: map<Path, Bytes>, step: Step)
    requires Inv(repo, s, start) && Settled(repo, s, start) && Enabled(repo, s, step) && !step.Remove? && SameBytes(s)
    ensures BlobsStay(s.files, After(repo, s, step).files)
  {
    if step.Rename? {
      RenameStays(repo, s, start, step.id);
    } else {
      assert WritersOk(repo, s);
      hide Inv, Settled, WritersOk, SameBytes;
      OtherStays(repo, s, step);
    }
  }

  lemma OtherStays(repo: Path, s: State, step: Step)
    requires WritersOk(repo, s) && Enabled(repo, s, step) && !step.Remove? && !step.Rename?
    ensures BlobsStay(s.files, After(repo, s, step).files)
  {
    hide ValidTarget, Copied, Collides;
    if step.CopyChunk? || step.Fail? {
      assert WriterOk(repo, s, step.id);
    }
  }

  lemma StepSettles(repo: Path, s: State, start: map<Path, Bytes>, step: Step)
    requires Inv(repo, s, start) && Settled(repo, s, start) && Enabled(repo, s, step)
    requires BlobsStay(s.files, After(repo, s, step).files)
    ensures Settled(repo, After(repo, s, step), start)
  {
    hide Inv, IsTemp, ValidTarget;
    var s' := After(repo, s, step);
    forall id | id in s'.writers && Acknowledging(s'.writers[id])
      ensures Stored(repo, s', s'.writers[id])
    {
      if id in s.writers && s.writers[id].phase == Finished(true) {
        StoredStays(repo, s, s', start, id);
      } else {
        NewlyFinished(repo, s, start, step, id);
      }
    }
    forall id | id in s'.writers && Passed(s'.writers[id])
      ensures FinalPath(repo, s'.writers[id]) !in start
    {
      NowPassed(repo, s, start, step, id);
    }
  }

  lemma StoredStays(repo: Path, s: State, s': State, start: map<Path, Bytes>, id: nat)
    requires Inv(repo, s, start) && id in s.writers && Stored(repo, s, s.writers[id])
    requires BlobsStay(s.files, s'.files)
    ensures Stored(repo, s', s.writers[id])
  {
    assert WriterOk(repo, s, id);
    BlobPathsAreNotTemp(repo, s.writers[id].t, s.writers[id].name);
  }

  /** A writer is acknowledged because it found its blob, or because it renamed it into place. */
  lemma NewlyFinished(repo: Path, s: State, start: map<Path, Bytes>, step: Step, id: nat)
    requires Inv(repo, s, start) && Enabled(repo, s, step)
    requires var s' := After(repo, s, step); id in s'.writers && Acknowledging(s'.writers[id])
    requires id !in s.writers || s.writers[id].phase != Finished(true)
    ensures Stored(repo, After(repo, s, step), After(repo, s, step).writers[id])
  {
    assert id in s.writers;
    assert WriterOk(repo, s, id);
  }

  lemma NowPassed(repo: Path, s: State, start: map<Path, Bytes>, step: Step, id: nat)
    requires Inv(repo, s, start) && Settled(repo, s, start) && Enabled(repo, s, step)
    requires var s' := After(repo, s, step); id in s'.writers && Passed(s'.writers[id])
    ensures id in s.writers && FinalPath(repo, s.writers[id]) !in start
  {
    PassedBefore(repo, s, step, id);
    assert WriterOk(repo, s, id);
    BlobPathsAreNotTemp(repo, s.writers[id].t, s.writers[id].name);
    hide Inv, WriterOk, Enabled, After, Passed, IsTemp, Stored;
  }

  /** A writer passes the sharded place when it finds it empty. */
  lemma PassedBefore(repo: Path, s: State, step: Step, id: nat)
    requires Enabled(repo, s, step)
    requires var s' := After(repo, s, step); id in s'.writers && Passed(s'.writers[id])
    ensures id in s.writers && (Passed(s.writers[id]) || FinalPath(repo, s.writers[id]) !in s.files)
  {
    hide ValidTarget, TempBeside, Collides, FinalPath, FlatPath;
  }

  /** The writers of an earlier state are still known, with their targets and payloads. */
  ghost predicate Persist(s: State, s': State) {
    forall id :: id in s.writers ==>
      id in s'.writers && SameTarget(s'.writers[id], s.writers[id]) && s'.writers[id].chunks == s.writers[id].chunks
  }

  lemma StepPersists(repo: Path, s: State, step: Step)
    requires Enabled(repo, s, step)
    ensures Persist(s, After(repo, s, step))
  {
    hide IsTemp, TempBeside, ValidTarget, HasDirectory, FinalPath, FindsFlat, HasFallback, Payload;
  }

  lemma {:induction false} WritersPersist(repo: Path, s: State, steps: seq<Step>)
    requires Legal(repo, s, steps)
    ensures Persist(s, End(repo, s, steps))
    decreases steps
  {
    if steps != [] {
      hide Enabled, After;
      StepPersists(repo, s, steps[0]);
      WritersPersist(repo, After(repo, s, steps[0]), steps[1..]);
    }
  }

  lemma SameBytesBefore(repo: Path, s: State, steps: seq<Step>)
    requires Legal(repo, s, steps) && SameBytes(End(repo, s, steps))
    ensures SameBytes(s)
  {
    WritersPersist(repo, s, steps);
  }

  lemma {:induction false} RunStays(repo: Path, s: State, start: map<Path, Bytes>, steps: seq<Step>)
    requires Inv(repo, s, start) && Settled(repo, s, start) && Legal(repo, s, steps) && NoRemoval(steps)
    requires SameBytes(End(repo, s, steps))
    ensures BlobsStay(s.files, End(repo, s, steps).files)
    ensures Inv(repo, End(repo, s, steps), start) && Settled(repo, End(repo, s, steps), start)
    decreases steps
  {
    if steps != [] {
      hide Inv, Settled, SameBytes, Enabled, After;
      SameBytesBefore(repo, s, steps);
      StepStays(repo, s, start, steps[0]);
      StepKeepsInv(repo, s, start, steps[0]);
      StepSettles(repo, s, start, steps[0]);
      RunStays(repo, After(repo, s, steps[0]), start, steps[1..]);
    }
  }

  /** When uploads of one name carry the same bytes and nothing is deleted, the content of a blob
      never changes once it is there, between any two moments of any interleaving; and at the later
      moment every acknowledged upload is stored: its blob has the bytes of the upload, unless the
      name was already taken at the start, or is that of a shard directory. */
  lemma ContentNeverChanges(repo: Path, start: map<Path, Bytes>, open: set<string>,
                            before: seq<Step>, later: seq<Step>)
    requires NeverBoth(repo, start) && Legal(repo, State(start, open, map[]), before) && NoRemoval(before)
    requires var mid := End(repo, State(start, open, map[]), before);
      Legal(repo, mid, later) && NoRemoval(later) && SameBytes(End(repo, mid, later))
    ensures var mid := End(repo, State(start, open, map[]), before); var s := End(repo, mid, later);
      && BlobsStay(start, mid.files) && BlobsStay(mid.files, s.files)
      && forall id :: id in s.writers && Acknowledging(s.writers[id]) ==> Acknowledged(repo, s, start, s.writers[id])
  {
    var init := State(start, open, map[]);
    var mid := End(repo, init, before);
    SameBytesBefore(repo, mid, later);
    RunStays(repo, init, start, before);
    RunStays(repo, mid, start, later);
    var s := End(repo, mid, later);
    forall id | id in s.writers && Acknowledging(s.writers[id])
      ensures Acknowledged(repo, s, start, s.writers[id])
    {
      AcknowledgedIsStored(repo, s, start, id);
    }
  }

  ghost predicate Acknowledged(repo: Path, s: State, start: map<Path, Bytes>, w: Writer) {
    var p, up := FinalPath(repo, w), FlatPath(repo, w.name);
    || (p in start && p in s.files && s.files[p] == start[p])
    || (HasFallback(w.t, w.name) && up in start && up in s.files && s.files[up] == start[up])
    || (p in s.files && s.files[p] == Payload(w))
  }

  lemma AcknowledgedIsStored(repo: Path, s: State, start: map<Path, Bytes>, id: nat)
    requires Inv(repo, s, start) && Settled(repo, s, start) && SameBytes(s)
    requires id in s.writers && Acknowledging(s.writers[id])
    ensures Acknowledged(repo, s, start, s.writers[id])
  {
    var w := s.writers[id];
    assert WriterOk(repo, s, id) && Stored(repo, s, w);
    BlobPathsAreNotTemp(repo, w.t, w.name);
    if FinalPath(repo, w) in s.files {
      WholeIsPayload(repo, s, id);
    } else {
      NeverWrittenFlat(repo, s, w.name);
    }
  }

  lemma WholeIsPayload(repo: Path, s: State, id: nat)
    requires SameBytes(s) && id in s.writers && FinalPath(repo, s.writers[id]) in s.files
    ensures WrittenWhole(repo, s, FinalPath(repo, s.writers[id])) ==>
      s.files[FinalPath(repo, s.writers[id])] == Payload(s.writers[id])
  {
    var w := s.writers[id];
    if WrittenWhole(repo, s, FinalPath(repo, w)) {
      var j :| j in s.writers && s.writers[j].phase == Finished(true)
          && FinalPath(repo, s.writers[j]) == FinalPath(repo, w)
               && s.files[FinalPath(repo, w)] == Payload(s.writers[j]);
      if !SameTarget(w, s.writers[j]) {
        PlacesDiffer(repo, w.t, w.name, s.writers[j].t, s.writers[j].name);
      }
    }
  }

  lemma NeverWrittenFlat(repo: Path, s: State, name: string)
    requires HasFallback("data", name) && FlatPath(repo, name) in s.files
    ensures !WrittenWhole(repo, s, FlatPath(repo, name))
  {
    forall id | id in s.writers
      ensures FinalPath(repo, s.writers[id]) != FlatPath(repo, name)
    {
      FinalIsNotFlat(repo, s.writers[id].t, s.writers[id].name, name);
    }
  }
}
