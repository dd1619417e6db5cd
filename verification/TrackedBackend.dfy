/**
 Traffic statistics: the wrapper that counts the bytes of every operation
 (internal/storage/tracked/tracked.go), the counters it feeds (internal/stats/store.go), and the
 exact balance between what the counters say and what the memory backend holds.
 */
module TrackedBackend {
  import opened Prelude
  import opened MapSum
  import opened MemoryBackend

  // ----- Counter rows

  datatype Row = Row(bytesWritten: nat, bytesRead: nat, bytesDeleted: nat,
                     writeCount: nat, readCount: nat, deleteCount: nat)

  type Rows = map<string, Row>

  const ZERO_ROW := Row(0, 0, 0, 0, 0, 0)

  function RowOf(rows: Rows, repo: string): Row {
    if repo in rows then rows[repo] else ZERO_ROW
  }

  function Wrote(rows: Rows, repo: string, n: nat): Rows {
    var r := RowOf(rows, repo);
    rows[repo := r.(bytesWritten := r.bytesWritten + n, writeCount := r.writeCount + 1)]
  }

  function ReadOf(rows: Rows, repo: string, n: nat): Rows {
    var r := RowOf(rows, repo);
    rows[repo := r.(bytesRead := r.bytesRead + n, readCount := r.readCount + 1)]
  }

  function Deleted(rows: Rows, repo: string, n: nat): Rows {
    var r := RowOf(rows, repo);
    rows[repo := r.(bytesDeleted := r.bytesDeleted + n, deleteCount := r.deleteCount + 1)]
  }

  /** Each Record method inserts a row or, when there is one, adds to its counters. */
  class Store {
    var rows: Rows

    constructor ()
      ensures rows == map[]
    {
      rows := map[];
    }

    method RecordWrite(repoPath: string, bytes: nat)
      modifies this
      ensures rows == Wrote(old(rows), repoPath, bytes)
    {
      if repoPath in rows {
        var r := rows[repoPath];
        rows := rows[repoPath := r.(bytesWritten := r.bytesWritten + bytes, writeCount := r.writeCount + 1)];
      } else {
        rows := rows[repoPath := ZERO_ROW.(bytesWritten := bytes, writeCount := 1)];
      }
    }

    method RecordRead(repoPath: string, bytes: nat)
      modifies this
      ensures rows == ReadOf(old(rows), repoPath, bytes)
    {
      if repoPath in rows {
        var r := rows[repoPath];
        rows := rows[repoPath := r.(bytesRead := r.bytesRead + bytes, readCount := r.readCount + 1)];
      } else {
        rows := rows[repoPath := ZERO_ROW.(bytesRead := bytes, readCount := 1)];
      }
    }

    method RecordDelete(repoPath: string, bytes: nat)
      modifies this
      ensures rows == Deleted(old(rows), repoPath, bytes)
    {
      if repoPath in rows {
        var r := rows[repoPath];
        rows := rows[repoPath := r.(bytesDeleted := r.bytesDeleted + bytes, deleteCount := r.deleteCount + 1)];
      } else {
        rows := rows[repoPath := ZERO_ROW.(bytesDeleted := bytes, deleteCount := 1)];
      }
    }
  }

  // ----- One operation on backend and counters

  datatype World = World(mem: Mem, rows: Rows)

  datatype Op =
    | CreateRepo
    | DeleteRepo
    | SaveConfig(chunks: seq<Bytes>, fails: bool)
    | SaveBlob(t: string, name: string, chunks: seq<Bytes>, fails: bool)
    | DeleteBlob(t: string, name: string)
    | ReadConfig(sizes: seq<nat>)
    | ReadBlob(t: string, name: string, offset: nat, length: int, sizes: seq<nat>)

  /** The row key of a repository: the root repository is counted under "/". */
  function StatsKey(key: string): string {
    if key == "" then "/" else key
  }

  function Uploaded(chunks: seq<Bytes>, fails: bool): Option<Bytes> {
    if fails then None else Some(Concat(chunks))
  }

  function SumOf(sizes: seq<nat>): nat {
    if sizes == [] then 0 else sizes[0] + SumOf(sizes[1..])
  }

  /** The bytes that reads of these sizes deliver. */
  function Taken(data: Bytes, sizes: seq<nat>): nat {
    Min(SumOf(sizes), |data|)
  }

  ghost function Step(w: World, key: string, op: Op): World {
    var row := StatsKey(key);
    match op
    case CreateRepo => w.(mem := AfterCreateRepo(w.mem, key))
    case DeleteRepo => w.(mem := AfterDeleteRepo(w.mem, key))
    case SaveConfig(chunks, fails) =>
      var data := Uploaded(chunks, fails);
      if SaveConfigError(w.mem, key, data).Some? then w
      else World(AfterSaveConfig(w.mem, key, data), Wrote(w.rows, row, |data.value|))
    case SaveBlob(t, name, chunks, fails) =>
      var data := Uploaded(chunks, fails);
      if SaveBlobError(w.mem, key, t, name, data).Some? then w
      else World(AfterSaveBlob(w.mem, key, t, name, data), Wrote(w.rows, row, |data.value|))
    case DeleteBlob(t, name) =>
      (match BlobOf(w.mem, key, t, name)
       case None => w
       case Some(data) => World(AfterDeleteBlob(w.mem, key, t, name), Deleted(w.rows, row, |data|)))
    case ReadConfig(sizes) =>
      (match ConfigOf(w.mem, key)
       case None => w
       case Some(data) => w.(rows := ReadOf(w.rows, row, Taken(data, sizes))))
    case ReadBlob(t, name, offset, length, sizes) =>
      (match MemoryBackend.ReadBlob(w.mem, key, t, name, offset, length)
       case Err(_) => w
       case Ok(body) => w.(rows := ReadOf(w.rows, row, Taken(body, sizes))))
  }

  // ----- The wrapper

  /** A download: it counts the bytes read and reports them when closed. */
  class StatsReadCloser {
    var rest: Bytes
    var count: nat
    const repo: string
    const store: Store

    constructor (data: Bytes, repo: string, store: Store)
      ensures rest == data && count == 0 && this.repo == repo && this.store == store
    {
      rest, count := data, 0;
      this.repo, this.store := repo, store;
    }

    method Read(n: nat) returns (chunk: Bytes)
      modifies this
      ensures chunk == old(rest)[..Min(n, |old(rest)|)] && rest == old(rest)[Min(n, |old(rest)|)..]
      ensures count == old(count) + |chunk|
    {
      var k := Min(n, |rest|);
      chunk := rest[..k];
      rest := rest[k..];
      count := count + |chunk|;
    }

    method Close()
      modifies store
      ensures store.rows == ReadOf(old(store.rows), repo, count)
    {
      store.RecordRead(repo, count);
    }
  }

  /** A response body is copied with reads of any sizes, then closed. */
  method Stream(rc: StatsReadCloser, sizes: seq<nat>) returns (sent: Bytes)
    requires rc.count == 0
    modifies rc, rc.store
    ensures sent == old(rc.rest)[..Taken(old(rc.rest), sizes)]
    ensures rc.store.rows == ReadOf(old(rc.store.rows), rc.repo, |sent|)
  {
    sent := [];
    ghost var data := rc.rest;
    for i := 0 to |sizes|
      invariant rc.count == |sent| && sent + rc.rest == data
      invariant Taken(data, sizes) == |sent| + Taken(rc.rest, sizes[i..])
      invariant rc.store.rows == old(rc.store.rows)
    {
      ghost var before := rc.rest;
      var chunk := rc.Read(sizes[i]);
      AppendAssoc(sent, chunk, rc.rest);
      assert chunk + rc.rest == before;
      assert sizes[i..][1..] == sizes[i + 1..];
      sent := sent + chunk;
    }
    assert sent == data[..|sent|];
    rc.Close();
  }

  class Tracked {
    const inner: Backend
    const store: Store

    ghost predicate Valid()
      reads inner
    {
      inner.Valid()
    }

    ghost function State(): World
      reads inner, store
    {
      World(inner.State(), store.rows)
    }

    constructor (inner: Backend, store: Store)
      requires inner.Valid()
      ensures Valid() && this.inner == inner && this.store == store
    {
      this.inner, this.store := inner, store;
    }

    method CreateRepo(key: string) returns (err: Option<Error>)
      requires Valid()
      modifies inner
      ensures Valid() && State() == Step(old(State()), key, Op.CreateRepo)
      ensures err == CreateRepoError(old(inner.State()), key)
    {
      hide WellFormed;
      err := inner.CreateRepo(key);
    }

    method DeleteRepo(key: string) returns (err: Option<Error>)
      requires Valid()
      modifies inner
      ensures Valid() && State() == Step(old(State()), key, Op.DeleteRepo)
      ensures err == DeleteRepoError(old(inner.State()), key)
    {
      hide WellFormed;
      err := inner.DeleteRepo(key);
    }

    method SaveConfig(key: string, chunks: seq<Bytes>, fails: bool) returns (err: Option<Error>)
      requires Valid()
      modifies inner, store
      ensures Valid() && State() == Step(old(State()), key, Op.SaveConfig(chunks, fails))
      ensures err == SaveConfigError(old(inner.State()), key, Uploaded(chunks, fails))
    {
      hide WellFormed;
      var cr := new CountingReader(chunks, fails);
      err := inner.SaveConfig(key, cr);
      if err == None {
        store.RecordWrite(StatsKey(key), cr.count);
      }
    }

    method SaveBlob(key: string, t: string, name: string, chunks: seq<Bytes>, fails: bool)
        returns (err: Option<Error>)
      requires Valid()
      modifies inner, store
      ensures Valid() && State() == Step(old(State()), key, Op.SaveBlob(t, name, chunks, fails))
      ensures err == SaveBlobError(old(inner.State()), key, t, name, Uploaded(chunks, fails))
    {
      hide WellFormed;
      var cr := new CountingReader(chunks, fails);
      err := inner.SaveBlob(key, t, name, cr);
      if err == None {
        store.RecordWrite(StatsKey(key), cr.count);
      }
    }

    method DeleteBlob(key: string, t: string, name: string) returns (err: Option<Error>)
      requires Valid()
      modifies inner, store
      ensures Valid() && State() == Step(old(State()), key, Op.DeleteBlob(t, name))
      ensures err == if BlobOf(old(inner.State()), key, t, name).None? then Some(NotFound) else None
    {
      hide WellFormed, WithoutBlob;
      var stat := inner.StatBlob(key, t, name);
      var size := if stat.Ok? then stat.value else 0;
      err := inner.DeleteBlob(key, t, name);
      if err == None {
        store.RecordDelete(StatsKey(key), size);
      }
    }

    method GetConfig(key: string) returns (r: Result<StatsReadCloser, Error>)
      requires Valid()
      ensures match ConfigOf(inner.State(), key)
              case None => r == Err(NotFound)
              case Some(data) => r.Ok? && fresh(r.value) && r.value.rest == data && r.value.count == 0
                                 && r.value.repo == StatsKey(key) && r.value.store == store
    {
      var rc := inner.GetConfig(key);
      if rc.Err? {
        return Err(rc.error);
      }
      var counting := new StatsReadCloser(rc.value, StatsKey(key), store);
      return Ok(counting);
    }

    method GetBlob(key: string, t: string, name: string, offset: nat, length: int)
        returns (r: Result<StatsReadCloser, Error>)
      requires Valid()
      ensures match MemoryBackend.ReadBlob(inner.State(), key, t, name, offset, length)
              case Err(e) => r == Err(e)
              case Ok(body) => r.Ok? && fresh(r.value) && r.value.rest == body
                               && r.value.count == 0 && r.value.repo == StatsKey(key) && r.value.store == store
    {
      var rc := inner.GetBlob(key, t, name, offset, length);
      if rc.Err? {
        return Err(rc.error);
      }
      var counting := new StatsReadCloser(rc.value, StatsKey(key), store);
      return Ok(counting);
    }

    /** A GET of a config as a whole: open, stream in reads of any sizes, close. */
    method ServeConfig(key: string, sizes: seq<nat>) returns (sent: Option<Bytes>)
      requires Valid()
      modifies store
      ensures Valid() && State() == Step(old(State()), key, ReadConfig(sizes))
      ensures sent.Some? <==> ConfigOf(inner.State(), key).Some?
      ensures sent.Some? ==> sent.value <= ConfigOf(inner.State(), key).value
    {
      hide WellFormed;
      var rc := GetConfig(key);
      if rc.Err? {
        return None;
      }
      var body := Stream(rc.value, sizes);
      return Some(body);
    }

    /** A GET of a blob as a whole: open, stream in reads of any sizes, close. */
    method ServeBlob(key: string, t: string, name: string, offset: nat, length: int, sizes: seq<nat>)
        returns (sent: Option<Bytes>)
      requires Valid()
      modifies store
      ensures Valid() && State() == Step(old(State()), key, ReadBlob(t, name, offset, length, sizes))
      ensures sent.Some? <==> MemoryBackend.ReadBlob(inner.State(), key, t, name, offset, length).Ok?
      ensures sent.Some? ==>
                sent.value <= MemoryBackend.ReadBlob(inner.State(), key, t, name, offset, length).value
    {
      hide WellFormed, MemoryBackend.ReadBlob;
      var rc := GetBlob(key, t, name, offset, length);
      if rc.Err? {
        return None;
      }
      var body := Stream(rc.value, sizes);
      return Some(body);
    }
  }

  // ----- The balance

  ghost function Live(m: Mem, key: string): nat {
    if key in m.repos then RepoSize(m.repos[key]) else 0
  }

  /** Bytes that a successful save replaces. The counters do not see them. */
  function Overwritten(w: World, key: string, op: Op): nat {
    match op
    case SaveConfig(chunks, fails) =>
      if SaveConfigError(w.mem, key, Uploaded(chunks, fails)).Some? then 0 else SizeOf(ConfigOf(w.mem, key))
    case SaveBlob(t, name, chunks, fails) =>
      if SaveBlobError(w.mem, key, t, name, Uploaded(chunks, fails)).Some? then 0
      else SizeOf(BlobOf(w.mem, key, t, name))
    case _ => 0
  }

  /** Bytes that go with a deleted repository. The counters do not see them either. */
  ghost function Dropped(w: World, key: string, op: Op): nat {
    if op.DeleteRepo? then Live(w.mem, key) else 0
  }

  function Delivered(w: World, key: string, op: Op): nat {
    match op
    case ReadConfig(sizes) =>
      (match ConfigOf(w.mem, key) case None => 0 case Some(data) => Taken(data, sizes))
    case ReadBlob(t, name, offset, length, sizes) =>
      (match MemoryBackend.ReadBlob(w.mem, key, t, name, offset, length)
       case Err(_) => 0
       case Ok(body) => Taken(body, sizes))
    case _ => 0
  }

  /** Byte counters of a row and live bytes, for comparing two states. */
  ghost predicate Balanced(before: Row, liveBefore: nat, after: Row, liveAfter: nat, lost: nat, delivered: nat) {
    && after.bytesWritten + liveBefore + before.bytesDeleted
       == before.bytesWritten + liveAfter + after.bytesDeleted + lost
    && after.bytesRead == before.bytesRead + delivered
  }

  lemma LiveAfterSaveBlob(m: Mem, key: string, t: string, name: string, data: Bytes)
    requires SaveBlobError(m, key, t, name, Some(data)).None?
    ensures Live(AfterSaveBlob(m, key, t, name, Some(data)), key)
         == Live(m, key) - SizeOf(BlobOf(m, key, t, name)) + |data|
  {
    RepoSizeOfBlob(m.repos[key], t, name, data);
  }

  lemma LiveAfterDeleteBlob(m: Mem, key: string, t: string, name: string)
    requires BlobOf(m, key, t, name).Some?
    ensures Live(AfterDeleteBlob(m, key, t, name), key) == Live(m, key) - |BlobOf(m, key, t, name).value|
  {
    RepoSizeWithoutBlob(m.repos[key], t, name);
  }

  lemma StepKeeps(w: World, key: string, op: Op)
    requires WellFormed(w.mem)
    ensures WellFormed(Step(w, key, op).mem)
    ensures Step(w, key, op).mem.maxBytes == w.mem.maxBytes
  {
    match op
    case CreateRepo => CreateRepoKeeps(w.mem, key);
    case DeleteRepo => DeleteRepoKeeps(w.mem, key);
    case SaveConfig(chunks, fails) => SaveConfigKeeps(w.mem, key, Uploaded(chunks, fails));
    case SaveBlob(t, name, chunks, fails) => SaveBlobKeeps(w.mem, key, t, name, Uploaded(chunks, fails));
    case DeleteBlob(t, name) => DeleteBlobKeeps(w.mem, key, t, name);
    case _ =>
  }

  /** One operation keeps the balance of every repository: of its own ... */
  lemma OwnStepBalances(w: World, k: string, op: Op)
    requires WellFormed(w.mem) && k != "/"
    ensures var w' := Step(w, k, op);
      Balanced(RowOf(w.rows, StatsKey(k)), Live(w.mem, k), RowOf(w'.rows, StatsKey(k)), Live(w'.mem, k),
               Overwritten(w, k, op) + Dropped(w, k, op), Delivered(w, k, op))
  {
    hide WellFormed, RepoSize, Concat, Section, Taken;
    match op
    case CreateRepo => CreateRepoKeeps(w.mem, k);
    case SaveConfig(chunks, fails) => LiveAfterSaveConfig(w.mem, k, Uploaded(chunks, fails));
    case SaveBlob(t, name, chunks, fails) =>
      if SaveBlobError(w.mem, k, t, name, Uploaded(chunks, fails)).None? {
        LiveAfterSaveBlob(w.mem, k, t, name, Uploaded(chunks, fails).value);
      }
    case DeleteBlob(t, name) =>
      if BlobOf(w.mem, k, t, name).Some? {
        LiveAfterDeleteBlob(w.mem, k, t, name);
      }
    case _ =>
  }

  lemma LiveAfterSaveConfig(m: Mem, key: string, data: Option<Bytes>)
    ensures SaveConfigError(m, key, data).None? ==>
      Live(AfterSaveConfig(m, key, data), key) == Live(m, key) - SizeOf(ConfigOf(m, key)) + |data.value|
  {
  }

  /** ... and of any other, whose row and content it does not touch. */
  lemma OtherStepBalances(w: World, key: string, op: Op, k: string)
    requires key != k && key != "/" && k != "/"
    ensures var w' := Step(w, key, op);
      RowOf(w'.rows, StatsKey(k)) == RowOf(w.rows, StatsKey(k)) && Live(w'.mem, k) == Live(w.mem, k)
  {
    hide RepoSize, Concat, Section, Taken;
  }

  lemma StepBalances(w: World, key: string, op: Op, k: string)
    requires WellFormed(w.mem) && key != "/" && k != "/"
    ensures var w' := Step(w, key, op);
      Balanced(RowOf(w.rows, StatsKey(k)), Live(w.mem, k), RowOf(w'.rows, StatsKey(k)), Live(w'.mem, k),
               if key == k then Overwritten(w, key, op) + Dropped(w, key, op) else 0,
               if key == k then Delivered(w, key, op) else 0)
  {
    hide Step, WellFormed, Live, Overwritten, Dropped, Delivered;
    if key == k {
      OwnStepBalances(w, k, op);
    } else {
      OtherStepBalances(w, key, op, k);
    }
  }

  // ----- Whole runs

  type Run = seq<(string, Op)>

  ghost function After(w: World, run: Run): World
    decreases run
  {
    if run == [] then w else After(Step(w, run[0].0, run[0].1), run[1..])
  }

  /** What repository k lost to overwriting and to repository deletion during a run. */
  ghost function Lost(w: World, run: Run, k: string): nat
    decreases run
  {
    if run == [] then 0
    else
      var (key, op) := run[0];
      (if key == k then Overwritten(w, key, op) + Dropped(w, key, op) else 0) + Lost(Step(w, key, op), run[1..], k)
  }

  ghost function DeliveredBy(w: World, run: Run, k: string): nat
    decreases run
  {
    if run == [] then 0
    else
      var (key, op) := run[0];
      (if key == k then Delivered(w, key, op) else 0) + DeliveredBy(Step(w, key, op), run[1..], k)
  }

  /** No repository prefix that the middleware produces is "/" (see Server.PrefixIsNotSlash). */
  ghost predicate Prefixes(run: Run) {
    forall i :: 0 <= i < |run| ==> run[i].0 != "/"
  }

  /** Over every run, for every repository: bytes written = live bytes + bytes deleted + bytes
      overwritten + bytes dropped with the repository, and bytes read = bytes delivered. */
  lemma {:induction false} RunBalances(w: World, run: Run, k: string)
    requires WellFormed(w.mem) && Prefixes(run) && k != "/"
    ensures WellFormed(After(w, run).mem) && After(w, run).mem.maxBytes == w.mem.maxBytes
    ensures var w' := After(w, run);
      Balanced(RowOf(w.rows, StatsKey(k)), Live(w.mem, k), RowOf(w'.rows, StatsKey(k)), Live(w'.mem, k),
               Lost(w, run, k), DeliveredBy(w, run, k))
    decreases run
  {
    hide Step, WellFormed, Live, Overwritten, Dropped, Delivered;
    if run != [] {
      var (key, op) := run[0];
      assert run[0].0 != "/";
      StepKeeps(w, key, op);
      StepBalances(w, key, op, k);
      RunBalances(Step(w, key, op), run[1..], k);
    }
  }

  // ----- The summary over all repositories

  function Plus(a: Row, b: Row): Row {
    Row(a.bytesWritten + b.bytesWritten, a.bytesRead + b.bytesRead, a.bytesDeleted + b.bytesDeleted,
        a.writeCount + b.writeCount, a.readCount + b.readCount, a.deleteCount + b.deleteCount)
  }

  ghost function WrittenOf(r: Row): nat { r.bytesWritten }

  ghost function BytesReadOf(r: Row): nat { r.bytesRead }

  ghost function DeletedOf(r: Row): nat { r.bytesDeleted }

  ghost function WritesOf(r: Row): nat { r.writeCount }

  ghost function ReadsOf(r: Row): nat { r.readCount }

  ghost function DeletesOf(r: Row): nat { r.deleteCount }

  /** GetSummary: the six SUMs over all rows. */
  ghost function Summary(rows: Rows): Row {
    Row(Sum(rows, WrittenOf), Sum(rows, BytesReadOf), Sum(rows, DeletedOf),
        Sum(rows, WritesOf), Sum(rows, ReadsOf), Sum(rows, DeletesOf))
  }

  /** What an operation moves: the bytes and the count of an upload, download or deletion that
      succeeds. */
  function Traffic(w: World, key: string, op: Op): Row {
    match op
    case CreateRepo => ZERO_ROW
    case DeleteRepo => ZERO_ROW
    case SaveConfig(chunks, fails) =>
      if SaveConfigError(w.mem, key, Uploaded(chunks, fails)).Some? then ZERO_ROW
      else ZERO_ROW.(bytesWritten := |Concat(chunks)|, writeCount := 1)
    case SaveBlob(t, name, chunks, fails) =>
      if SaveBlobError(w.mem, key, t, name, Uploaded(chunks, fails)).Some? then ZERO_ROW
      else ZERO_ROW.(bytesWritten := |Concat(chunks)|, writeCount := 1)
    case DeleteBlob(t, name) =>
      if BlobOf(w.mem, key, t, name).None? then ZERO_ROW
      else ZERO_ROW.(bytesDeleted := |BlobOf(w.mem, key, t, name).value|, deleteCount := 1)
    case ReadConfig(_) =>
      if ConfigOf(w.mem, key).None? then ZERO_ROW
      else ZERO_ROW.(bytesRead := Delivered(w, key, op), readCount := 1)
    case ReadBlob(t, name, offset, length, _) =>
      if MemoryBackend.ReadBlob(w.mem, key, t, name, offset, length).Err? then ZERO_ROW
      else ZERO_ROW.(bytesRead := Delivered(w, key, op), readCount := 1)
  }

  lemma RowTakesUp(w: World, key: string, op: Op)
    ensures var row, traffic := StatsKey(key), Traffic(w, key, op);
      Step(w, key, op).rows == if traffic == ZERO_ROW then w.rows else w.rows[row := Plus(RowOf(w.rows, row), traffic)]
  {
    hide Concat, Taken, RowOf, StatsKey, BlobOf, ConfigOf, MemoryBackend.ReadBlob, RepoSize, WithBlob;
    hide AfterSaveConfig, AfterSaveBlob, AfterDeleteBlob, AfterDeleteRepo, AfterCreateRepo;
  }

  /** The row of the repository takes it up, "/" for the root and else the one of its name, and no other
      row changes; a repository gets a row with its first traffic. */
  lemma StepRows(w: World, key: string, op: Op)
    ensures var row, traffic := if |key| == 0 then "/" else key, Traffic(w, key, op);
      Step(w, key, op).rows == if traffic == ZERO_ROW then w.rows else w.rows[row := Plus(RowOf(w.rows, row), traffic)]
  {
    hide Step, Traffic, RowOf;
    RowTakesUp(w, key, op);
  }

  lemma SummaryOfSet(rows: Rows, repo: string, r: Row)
    ensures Plus(Summary(rows[repo := r]), RowOf(rows, repo)) == Plus(Summary(rows), r)
  {
    SumSet(rows, WrittenOf, repo, r);
    SumSet(rows, BytesReadOf, repo, r);
    SumSet(rows, DeletedOf, repo, r);
    SumSet(rows, WritesOf, repo, r);
    SumSet(rows, ReadsOf, repo, r);
    SumSet(rows, DeletesOf, repo, r);
    hide Sum;
  }

  lemma StepSummary(w: World, key: string, op: Op)
    ensures Summary(Step(w, key, op).rows) == Plus(Summary(w.rows), Traffic(w, key, op))
  {
    RowTakesUp(w, key, op);
    var row, traffic := StatsKey(key), Traffic(w, key, op);
    hide Step, Traffic, Summary, RowOf;
    PlusZero(Summary(w.rows));
    SummaryOfSet(w.rows, row, Plus(RowOf(w.rows, row), traffic));
    hide *;
    PlusCancel(Summary(Step(w, key, op).rows), RowOf(w.rows, row), Summary(w.rows), traffic);
  }

  lemma PlusZero(a: Row)
    ensures Plus(a, ZERO_ROW) == a
  {
  }

  lemma PlusCancel(a: Row, b: Row, c: Row, d: Row)
    ensures Plus(a, b) == Plus(c, Plus(b, d)) ==> a == Plus(c, d)
  {
  }

  lemma PlusAssoc(a: Row, b: Row, c: Row)
    ensures Plus(Plus(a, b), c) == Plus(a, Plus(b, c))
  {
  }

  /** What an operation writes and deletes, and what it overwrites or drops, is the change of the
      quota counter. */
  lemma StepUsed(w: World, key: string, op: Op)
    requires WellFormed(w.mem)
    ensures var traffic := Traffic(w, key, op);
      w.mem.used + traffic.bytesWritten
      == Step(w, key, op).mem.used + traffic.bytesDeleted + Overwritten(w, key, op) + Dropped(w, key, op)
  {
    hide RepoSize, Concat, Taken, WithBlob, WithoutBlob;
  }

  ghost function LostByAll(w: World, run: Run): nat
    decreases run
  {
    if run == [] then 0
    else
      var (key, op) := run[0];
      Overwritten(w, key, op) + Dropped(w, key, op) + LostByAll(Step(w, key, op), run[1..])
  }

  /** The rows of the repositories that anything was moved for. */
  ghost function ActiveRows(w: World, run: Run): set<string>
    decreases run
  {
    if run == [] then {}
    else
      var (key, op) := run[0];
      (if Traffic(w, key, op) == ZERO_ROW then {} else {StatsKey(key)}) + ActiveRows(Step(w, key, op), run[1..])
  }

  /** COUNT(*) of GetSummary: over every run the rows are those of before and those of the repositories
      with traffic. */
  lemma {:induction false} RunRows(w: World, run: Run)
    ensures After(w, run).rows.Keys == w.rows.Keys + ActiveRows(w, run)
    decreases run
  {
    if run != [] {
      var (key, op) := run[0];
      RowTakesUp(w, key, op);
      hide Step, Traffic, StatsKey;
      RunRows(Step(w, key, op), run[1..]);
    }
  }

  ghost function RunTraffic(w: World, run: Run): Row
    decreases run
  {
    if run == [] then ZERO_ROW
    else Plus(Traffic(w, run[0].0, run[0].1), RunTraffic(Step(w, run[0].0, run[0].1), run[1..]))
  }

  /** Over every run, the six sums of the summary grow by what all the operations moved, and agree
      with the quota counter: total written = used bytes + total deleted + everything overwritten
      or dropped. */
  lemma {:induction false} RunSummary(w: World, run: Run)
    requires WellFormed(w.mem)
    ensures var w' := After(w, run);
      && Summary(w'.rows) == Plus(Summary(w.rows), RunTraffic(w, run))
      && w.mem.used + RunTraffic(w, run).bytesWritten
         == w'.mem.used + RunTraffic(w, run).bytesDeleted + LostByAll(w, run)
    decreases run
  {
    hide Step, WellFormed, Overwritten, Dropped, Traffic, Summary;
    if run != [] {
      var (key, op) := run[0];
      StepKeeps(w, key, op);
      StepSummary(w, key, op);
      StepUsed(w, key, op);
      RunSummary(Step(w, key, op), run[1..]);
      PlusAssoc(Summary(w.rows), Traffic(w, key, op), RunTraffic(Step(w, key, op), run[1..]));
    } else {
      PlusZero(Summary(w.rows));
    }
  }

  /** The delivered bytes of all repositories. */
  ghost function DeliveredByAll(w: World, run: Run): nat
    decreases run
  {
    if run == [] then 0
    else
      var (key, op) := run[0];
      Delivered(w, key, op) + DeliveredByAll(Step(w, key, op), run[1..])
  }

  lemma {:induction false} ReadIsDelivered(w: World, run: Run)
    ensures RunTraffic(w, run).bytesRead == DeliveredByAll(w, run)
    decreases run
  {
    if run != [] {
      var (key, op) := run[0];
      TrafficReads(w, key, op);
      hide Step, Traffic, Delivered;
      ReadIsDelivered(Step(w, key, op), run[1..]);
    }
  }

  lemma TrafficReads(w: World, key: string, op: Op)
    ensures Traffic(w, key, op).bytesRead == Delivered(w, key, op)
  {
    hide Concat, Taken, SaveConfigError, SaveBlobError, MemoryBackend.ReadBlob;
  }

  /** From an empty server the balance needs no starting values. */
  lemma FreshServerBalances(maxBytes: int, run: Run, k: string)
    requires Prefixes(run) && k != "/"
    ensures var w := World(Mem(maxBytes, 0, map[]), map[]); var w' := After(w, run); var total := Summary(w'.rows);
      && RowOf(w'.rows, StatsKey(k)).bytesWritten
         == Live(w'.mem, k) + RowOf(w'.rows, StatsKey(k)).bytesDeleted + Lost(w, run, k)
      && total == RunTraffic(w, run)
      && total.bytesWritten == w'.mem.used + total.bytesDeleted + LostByAll(w, run)
      && total.bytesRead == DeliveredByAll(w, run)
      && |w'.rows| == |ActiveRows(w, run)|
      && w'.mem.used == Total(w'.mem.repos)
      && 0 <= w'.mem.used
      && (maxBytes >= 0 ==> w'.mem.used <= w'.mem.maxBytes)
  {
    var w := World(Mem(maxBytes, 0, map[]), map[]);
    EmptyServer(maxBytes, k);
    hide After, Live, Lost, RunTraffic, ActiveRows, LostByAll, DeliveredByAll, Summary, RowOf, Total, StatsKey;
    RunBalances(w, run, k);
    RunSummary(w, run);
    PlusZero(RunTraffic(w, run));
    assert Plus(ZERO_ROW, RunTraffic(w, run)) == RunTraffic(w, run);
    ReadIsDelivered(w, run);
    RowCount(w, run);
  }

  lemma RowCount(w: World, run: Run)
    requires w.rows == map[]
    ensures |After(w, run).rows| == |ActiveRows(w, run)|
  {
    hide After, ActiveRows;
    RunRows(w, run);
    assert |After(w, run).rows| == |After(w, run).rows.Keys|;
  }

  lemma EmptyServer(maxBytes: int, k: string)
    ensures var w := World(Mem(maxBytes, 0, map[]), map[]);
      WellFormed(w.mem) && Summary(w.rows) == ZERO_ROW && RowOf(w.rows, StatsKey(k)) == ZERO_ROW && Live(w.mem, k) == 0
  {
  }
}
