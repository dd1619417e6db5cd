/**
 The in-memory storage backend (internal/storage/memory/memory.go): repositories of typed buckets
 of blobs, with a byte quota over everything that is stored.
 */
module MemoryBackend {
  import opened Prelude
  import opened MapSum
  import opened BlobNames
  import BlobRange

  /** Panicked: a slice out of bounds, which the server turns into an internal error. */
  datatype Error = ReadFailed | NotFound | RepoNotFound | RepoExists | QuotaExceeded | Panicked

  // ----- The abstract state

  type Bucket = map<string, Bytes>

  datatype RepoState = RepoState(config: Option<Bytes>, blobs: map<string, Bucket>)

  type Repos = map<string, RepoState>

  datatype Mem = Mem(maxBytes: int, used: int, repos: Repos)

  ghost function Len(data: Bytes): nat {
    |data|
  }

  ghost function BucketSize(bucket: Bucket): nat {
    Sum(bucket, Len)
  }

  ghost function BucketsSize(blobs: map<string, Bucket>): nat {
    Sum(blobs, BucketSize)
  }

  lemma TakeBlob(bucket: Bucket, name: string)
    requires name in bucket
    ensures BucketSize(bucket) == |bucket[name]| + BucketSize(bucket - {name})
  {
    SumTake(bucket, Len, name);
  }

  lemma TakeBucket(blobs: map<string, Bucket>, t: string)
    requires t in blobs
    ensures BucketsSize(blobs) == BucketSize(blobs[t]) + BucketsSize(blobs - {t})
  {
    SumTake(blobs, BucketSize, t);
  }

  /** The length of a config or blob, 0 where there is none. */
  function SizeOf(data: Option<Bytes>): nat {
    if data.Some? then |data.value| else 0
  }

  ghost function RepoSize(repo: RepoState): nat {
    SizeOf(repo.config) + BucketsSize(repo.blobs)
  }

  /** The bytes stored in all repositories. */
  ghost function Total(repos: Repos): nat {
    Sum(repos, RepoSize)
  }

  ghost predicate WellFormed(m: Mem) {
    && (forall key :: key in m.repos ==> m.repos[key].blobs.Keys == BLOB_TYPES)
    && m.used == Total(m.repos)
    && (m.maxBytes >= 0 ==> m.used <= m.maxBytes)
  }

  const EMPTY_REPO := RepoState(None, map t | t in BLOB_TYPES :: map[])

  // ----- What the operations do to it

  function BlobOf(m: Mem, key: string, t: string, name: string): Option<Bytes> {
    if key in m.repos && t in m.repos[key].blobs && name in m.repos[key].blobs[t] then
      Some(m.repos[key].blobs[t][name])
    else None
  }

  function ConfigOf(m: Mem, key: string): Option<Bytes> {
    if key in m.repos then m.repos[key].config else None
  }

  /** The blobs of a type; none in a repository that is not there. */
  function BucketOf(m: Mem, key: string, t: string): Bucket {
    if key in m.repos && t in m.repos[key].blobs then m.repos[key].blobs[t] else map[]
  }

  /** What GetBlob delivers. */
  function ReadBlob(m: Mem, key: string, t: string, name: string, offset: nat, length: int): Result<Bytes, Error> {
    match BlobOf(m, key, t, name)
    case None => Err(NotFound)
    case Some(data) =>
      match BlobRange.MemorySlice(data, offset, length)
      case None => Err(Panicked)
      case Some(body) => Ok(body)
  }

  function WithBlob(repos: Repos, key: string, t: string, name: string, data: Bytes): Repos
    requires key in repos && t in repos[key].blobs
  {
    repos[key := repos[key].(blobs := repos[key].blobs[t := repos[key].blobs[t][name := data]])]
  }

  function WithoutBlob(repos: Repos, key: string, t: string, name: string): Repos
    requires key in repos && t in repos[key].blobs
  {
    repos[key := repos[key].(blobs := repos[key].blobs[t := repos[key].blobs[t] - {name}])]
  }

  function CreateRepoError(m: Mem, key: string): Option<Error> {
    if key in m.repos then Some(RepoExists) else None
  }

  function AfterCreateRepo(m: Mem, key: string): Mem {
    if CreateRepoError(m, key).Some? then m else m.(repos := m.repos[key := EMPTY_REPO])
  }

  function DeleteRepoError(m: Mem, key: string): Option<Error> {
    if key in m.repos then None else Some(RepoNotFound)
  }

  ghost function AfterDeleteRepo(m: Mem, key: string): Mem {
    if DeleteRepoError(m, key).Some? then m
    else m.(used := m.used - RepoSize(m.repos[key]), repos := m.repos - {key})
  }

  /** None for data: the reader failed. */
  function SaveConfigError(m: Mem, key: string, data: Option<Bytes>): Option<Error> {
    if data.None? then Some(ReadFailed)
    else if key !in m.repos then Some(RepoNotFound)
    else if m.used - SizeOf(ConfigOf(m, key)) + |data.value| > m.maxBytes then Some(QuotaExceeded)
    else None
  }

  function AfterSaveConfig(m: Mem, key: string, data: Option<Bytes>): Mem {
    if SaveConfigError(m, key, data).Some? then m
    else m.(used := m.used - SizeOf(ConfigOf(m, key)) + |data.value|,
            repos := m.repos[key := m.repos[key].(config := data)])
  }

  function SaveBlobError(m: Mem, key: string, t: string, name: string, data: Option<Bytes>): Option<Error> {
    if data.None? then Some(ReadFailed)
    else if key !in m.repos then Some(RepoNotFound)
    else if t !in m.repos[key].blobs then Some(NotFound)
    else if m.used - SizeOf(BlobOf(m, key, t, name)) + |data.value| > m.maxBytes then Some(QuotaExceeded)
    else None
  }

  function AfterSaveBlob(m: Mem, key: string, t: string, name: string, data: Option<Bytes>): Mem {
    if SaveBlobError(m, key, t, name, data).Some? then m
    else m.(used := m.used - SizeOf(BlobOf(m, key, t, name)) + |data.value|,
            repos := WithBlob(m.repos, key, t, name, data.value))
  }

  function AfterDeleteBlob(m: Mem, key: string, t: string, name: string): Mem {
    var data := BlobOf(m, key, t, name);
    if data.None? then m
    else m.(used := m.used - |data.value|, repos := WithoutBlob(m.repos, key, t, name))
  }

  // ----- What every operation keeps

  lemma RepoSizeOfBlobs(repo: RepoState, t: string, bucket: Bucket)
    requires t in repo.blobs
    ensures RepoSize(repo.(blobs := repo.blobs[t := bucket]))
        == RepoSize(repo) - BucketSize(repo.blobs[t]) + BucketSize(bucket)
  {
    SumSet(repo.blobs, BucketSize, t, bucket);
  }

  lemma CreateRepoKeeps(m: Mem, key: string)
    requires WellFormed(m)
    ensures WellFormed(AfterCreateRepo(m, key))
    ensures RepoSize(EMPTY_REPO) == 0
  {
    SumOfZeros(EMPTY_REPO.blobs, BucketSize);
    SumSet(m.repos, RepoSize, key, EMPTY_REPO);
  }

  lemma DeleteRepoKeeps(m: Mem, key: string)
    requires WellFormed(m)
    ensures WellFormed(AfterDeleteRepo(m, key))
  {
    if key in m.repos {
      SumTake(m.repos, RepoSize, key);
    }
  }

  lemma SaveConfigKeeps(m: Mem, key: string, data: Option<Bytes>)
    requires WellFormed(m)
    ensures WellFormed(AfterSaveConfig(m, key, data))
  {
    if SaveConfigError(m, key, data).None? {
      SumSet(m.repos, RepoSize, key, m.repos[key].(config := data));
    }
  }

  /** The size of a repository whose blob is set. */
  lemma RepoSizeOfBlob(repo: RepoState, t: string, name: string, data: Bytes)
    requires t in repo.blobs
    ensures RepoSize(repo.(blobs := repo.blobs[t := repo.blobs[t][name := data]]))
         == RepoSize(repo) - (if name in repo.blobs[t] then |repo.blobs[t][name]| else 0) + |data|
  {
    SumSet(repo.blobs[t], Len, name, data);
    RepoSizeOfBlobs(repo, t, repo.blobs[t][name := data]);
    hide RepoSize;
  }

  lemma TotalWithBlob(m: Mem, key: string, t: string, name: string, data: Bytes)
    requires key in m.repos && t in m.repos[key].blobs
    ensures Total(WithBlob(m.repos, key, t, name, data)) == Total(m.repos) - SizeOf(BlobOf(m, key, t, name)) + |data|
  {
    hide RepoSize;
    var repo := m.repos[key];
    RepoSizeOfBlob(repo, t, name, data);
    SumSet(m.repos, RepoSize, key, repo.(blobs := repo.blobs[t := repo.blobs[t][name := data]]));
  }

  lemma SaveBlobKeeps(m: Mem, key: string, t: string, name: string, data: Option<Bytes>)
    requires WellFormed(m)
    ensures WellFormed(AfterSaveBlob(m, key, t, name, data))
  {
    hide Total, BlobOf;
    if SaveBlobError(m, key, t, name, data).None? {
      TotalWithBlob(m, key, t, name, data.value);
    }
  }

  lemma RepoSizeWithoutBlob(repo: RepoState, t: string, name: string)
    requires t in repo.blobs && name in repo.blobs[t]
    ensures RepoSize(repo.(blobs := repo.blobs[t := repo.blobs[t] - {name}])) == RepoSize(repo) - |repo.blobs[t][name]|
  {
    TakeBlob(repo.blobs[t], name);
    RepoSizeOfBlobs(repo, t, repo.blobs[t] - {name});
    hide RepoSize;
  }

  lemma DeleteBlobKeeps(m: Mem, key: string, t: string, name: string)
    requires WellFormed(m)
    ensures WellFormed(AfterDeleteBlob(m, key, t, name))
  {
    hide RepoSize;
    if BlobOf(m, key, t, name).Some? {
      var repo := m.repos[key];
      RepoSizeWithoutBlob(repo, t, name);
      SumSet(m.repos, RepoSize, key, repo.(blobs := repo.blobs[t := repo.blobs[t] - {name}]));
    }
  }

  /** A save into an existing bucket goes through exactly when everything that would then be stored
      fits the quota, and a save that fails changes nothing. */
  lemma SaveFitsQuota(m: Mem, key: string, t: string, name: string, data: Bytes)
    requires WellFormed(m) && key in m.repos && t in BLOB_TYPES
    ensures SaveBlobError(m, key, t, name, Some(data)).None? <==>
        Total(WithBlob(m.repos, key, t, name, data)) <= m.maxBytes
    ensures SaveBlobError(m, key, t, name, Some(data)).Some? ==> AfterSaveBlob(m, key, t, name, Some(data)) == m
  {
    hide Total, BlobOf;
    TotalWithBlob(m, key, t, name, data);
  }

  lemma ConfigFitsQuota(m: Mem, key: string, data: Bytes)
    requires WellFormed(m) && key in m.repos
    ensures SaveConfigError(m, key, Some(data)).None? <==>
      Total(m.repos[key := m.repos[key].(config := Some(data))]) <= m.maxBytes
    ensures SaveConfigError(m, key, Some(data)).Some? ==> AfterSaveConfig(m, key, Some(data)) == m
  {
    hide BucketsSize;
    SumSet(m.repos, RepoSize, key, m.repos[key].(config := Some(data)));
  }

  // ----- Readers

  /** An upload: the chunks that successive Read calls deliver, then end of file or an error. It
      counts the bytes that pass, as countingReader does (internal/storage/tracked/tracked.go). */
  class CountingReader {
    var pending: seq<Bytes>
    const fails: bool
    var count: nat

    constructor (chunks: seq<Bytes>, fails: bool)
      ensures pending == chunks && this.fails == fails && count == 0
    {
      pending := chunks;
      this.fails := fails;
      count := 0;
    }

    /** None: end of file or error. */
    method Read() returns (chunk: Option<Bytes>)
      modifies this
      ensures if old(pending) == [] then chunk == None && pending == [] && count == old(count)
              else chunk == Some(old(pending)[0]) && pending == old(pending)[1..]
                   && count == old(count) + |old(pending)[0]|
    {
      if pending == [] {
        return None;
      }
      chunk := Some(pending[0]);
      count := count + |pending[0]|;
      pending := pending[1..];
    }

    /** What io.ReadAll makes of it. */
    function Content(): Option<Bytes>
      reads this
    {
      if fails then None else Some(Concat(pending))
    }
  }

  method ReadAll(reader: CountingReader) returns (buf: Option<Bytes>)
    modifies reader
    ensures buf == old(reader.Content())
    ensures reader.pending == [] && reader.count == old(reader.count) + |Concat(old(reader.pending))|
  {
    var data: Bytes := [];
    assert data + Concat(reader.pending) == Concat(reader.pending);
    var more := true;
    while more
      invariant data + Concat(reader.pending) == Concat(old(reader.pending))
      invariant reader.count == old(reader.count) + |data|
      invariant !more ==> reader.pending == []
      decreases |reader.pending|, more
    {
      ghost var before := reader.pending;
      var chunk := reader.Read();
      if chunk.None? {
        more := false;
      } else {
        AppendAssoc(data, chunk.value, Concat(before[1..]));
        data := data + chunk.value;
      }
    }
    assert data + Concat([]) == data;
    buf := if reader.fails then None else Some(data);
  }

  // ----- The backend

  /** Each name of the bucket once, with its size: the last entry is in the bucket, and the others
      list the bucket without it. */
  predicate IsListing(blobs: seq<BlobInfo>, bucket: Bucket) {
    if blobs == [] then bucket == map[]
    else
      var last := blobs[|blobs| - 1];
      && last.name in bucket
      && last.size == |bucket[last.name]|
      && IsListing(blobs[..|blobs| - 1], bucket - {last.name})
  }

  lemma {:induction false} ListingMeaning(blobs: seq<BlobInfo>, bucket: Bucket, name: string)
    requires IsListing(blobs, bucket)
    ensures |blobs| == |bucket|
    ensures name in bucket <==> BlobInfo(name, if name in bucket then |bucket[name]| else 0) in blobs
    ensures forall i, j :: 0 <= i < j < |blobs| ==> blobs[i].name != blobs[j].name
  {
    ListingSize(blobs, bucket);
    ListingNames(blobs, bucket);
  }

  /** What a listing says of each blob of a bucket. */
  function BucketInfos(bucket: Bucket): map<string, BlobInfo> {
    map name | name in bucket :: BlobInfo(name, |bucket[name]|)
  }

  /** A listing, in whatever order, has one entry for each blob. */
  lemma {:induction false} ListingIsInfos(blobs: seq<BlobInfo>, bucket: Bucket)
    requires IsListing(blobs, bucket)
    ensures multiset(blobs) == Values(BucketInfos(bucket))
  {
    if blobs == [] {
      assert BucketInfos(bucket) == map[];
    } else {
      var front, last := blobs[..|blobs| - 1], blobs[|blobs| - 1];
      InfosWithout(bucket, last);
      hide *;
      ListingIsInfos(front, bucket - {last.name});
      ValuesTake(BucketInfos(bucket), last.name);
      MultisetOfLast(blobs);
    }
  }

  lemma InfosWithout(bucket: Bucket, last: BlobInfo)
    requires last.name in bucket && last.size == |bucket[last.name]|
    ensures BucketInfos(bucket - {last.name}) == BucketInfos(bucket) - {last.name}
    ensures last.name in BucketInfos(bucket) && BucketInfos(bucket)[last.name] == last
  {
  }

  /** No entry comes twice. */
  lemma {:induction false} InfosOnce(bucket: Bucket, b: BlobInfo)
    ensures Values(BucketInfos(bucket))[b] == if b.name in bucket && |bucket[b.name]| == b.size then 1 else 0
  {
    if bucket == map[] {
      assert BucketInfos(bucket) == map[];
    } else {
      var name :| name in bucket;
      var last := BlobInfo(name, |bucket[name]|);
      InfosWithout(bucket, last);
      hide BucketInfos, Values;
      ValuesTake(BucketInfos(bucket), name);
      InfosOnce(bucket - {name}, b);
    }
  }

  lemma {:induction false} ListingSize(blobs: seq<BlobInfo>, bucket: Bucket)
    requires IsListing(blobs, bucket)
    ensures |blobs| == |bucket|
  {
    if blobs != [] {
      var last := blobs[|blobs| - 1];
      ListingSize(blobs[..|blobs| - 1], bucket - {last.name});
      assert bucket.Keys == (bucket - {last.name}).Keys + {last.name};
    }
  }

  lemma {:induction false} ListingNames(blobs: seq<BlobInfo>, bucket: Bucket)
    requires IsListing(blobs, bucket)
    ensures forall i :: 0 <= i < |blobs| ==> blobs[i].name in bucket && blobs[i].size == |bucket[blobs[i].name]|
    ensures forall i, j :: 0 <= i < j < |blobs| ==> blobs[i].name != blobs[j].name
    ensures forall name :: name in bucket ==> BlobInfo(name, |bucket[name]|) in blobs
  {
    if blobs != [] {
      var front, last := blobs[..|blobs| - 1], blobs[|blobs| - 1];
      assert blobs == front + [last];
      ListingNames(front, bucket - {last.name});
      forall name | name in bucket
        ensures BlobInfo(name, |bucket[name]|) in blobs
      {
        if name != last.name {
          assert name in bucket - {last.name};
        }
      }
    }
  }

  class Backend {
    const maxBytes: int
    var usedBytes: int
    var repos: Repos

    ghost predicate Valid()
      reads this
    {
      WellFormed(State())
    }

    function State(): Mem
      reads this
    {
      Mem(maxBytes, usedBytes, repos)
    }

    constructor (maxBytes: int)
      ensures Valid() && State() == Mem(maxBytes, 0, map[])
    {
      this.maxBytes := maxBytes;
      usedBytes := 0;
      repos := map[];
    }

    method CreateRepo(key: string) returns (err: Option<Error>)
      requires Valid()
      modifies this
      ensures Valid() && State() == AfterCreateRepo(old(State()), key) && err == CreateRepoError(old(State()), key)
    {
      CreateRepoKeeps(State(), key);
      if key in repos {
        return Some(RepoExists);
      }
      repos := repos[key := EMPTY_REPO];
      return None;
    }

    /** The nested loops give back exactly the bytes of the repository. */
    method DeleteRepo(key: string) returns (err: Option<Error>)
      requires Valid()
      modifies this
      ensures Valid() && State() == AfterDeleteRepo(old(State()), key) && err == DeleteRepoError(old(State()), key)
    {
      hide WellFormed;
      DeleteRepoKeeps(State(), key);
      if key !in repos {
        return Some(RepoNotFound);
      }
      var r := repos[key];
      if r.config.Some? {
        usedBytes := usedBytes - |r.config.value|;
      }
      ghost var afterConfig := usedBytes;
      var buckets := r.blobs;
      while buckets != map[]
        invariant usedBytes == afterConfig - BucketsSize(r.blobs) + BucketsSize(buckets)
        invariant repos == old(repos)
        decreases buckets.Keys
      {
        var t :| t in buckets;
        TakeBucket(buckets, t);
        ghost var beforeBucket := usedBytes;
        var bucket := buckets[t];
        while bucket != map[]
          invariant usedBytes == beforeBucket - BucketSize(buckets[t]) + BucketSize(bucket)
          invariant repos == old(repos)
          decreases bucket.Keys
        {
          var name :| name in bucket;
          TakeBlob(bucket, name);
          usedBytes := usedBytes - |bucket[name]|;
          bucket := bucket - {name};
        }
        buckets := buckets - {t};
      }
      repos := repos - {key};
      return None;
    }

    method StatConfig(key: string) returns (r: Result<nat, Error>)
      ensures r == match ConfigOf(State(), key) case None => Err(NotFound) case Some(data) => Ok(|data|)
    {
      if key !in repos || repos[key].config.None? {
        return Err(NotFound);
      }
      return Ok(|repos[key].config.value|);
    }

    method GetConfig(key: string) returns (r: Result<Bytes, Error>)
      ensures r == match ConfigOf(State(), key) case None => Err(NotFound) case Some(data) => Ok(data)
    {
      if key !in repos || repos[key].config.None? {
        return Err(NotFound);
      }
      return Ok(repos[key].config.value);
    }

    method SaveConfig(key: string, data: CountingReader) returns (err: Option<Error>)
      requires Valid()
      modifies this, data
      ensures Valid()
      ensures State() == AfterSaveConfig(old(State()), key, old(data.Content()))
      ensures err == SaveConfigError(old(State()), key, old(data.Content()))
      ensures data.count == old(data.count) + |Concat(old(data.pending))|
    {
      hide WellFormed;
      SaveConfigKeeps(State(), key, data.Content());
      var buf := ReadAll(data);
      if buf.None? {
        return Some(ReadFailed);
      }
      if key !in repos {
        return Some(RepoNotFound);
      }
      var oldSize := SizeOf(repos[key].config);
      var newSize := |buf.value|;
      if usedBytes - oldSize + newSize > maxBytes {
        return Some(QuotaExceeded);
      }
      usedBytes := usedBytes - oldSize + newSize;
      repos := repos[key := repos[key].(config := buf)];
      return None;
    }

    method StatBlob(key: string, t: string, name: string) returns (r: Result<nat, Error>)
      ensures r == match BlobOf(State(), key, t, name) case None => Err(NotFound) case Some(data) => Ok(|data|)
    {
      if key !in repos {
        return Err(NotFound);
      }
      var repo := repos[key];
      if t !in repo.blobs || name !in repo.blobs[t] {
        return Err(NotFound);
      }
      return Ok(|repo.blobs[t][name]|);
    }

    /** The slice, on int64 positions whose sum may wrap. */
    method GetBlob(key: string, t: string, name: string, offset: nat, length: int) returns (r: Result<Bytes, Error>)
      ensures r == ReadBlob(State(), key, t, name, offset, length)
    {
      if key !in repos {
        return Err(NotFound);
      }
      var repo := repos[key];
      if t !in repo.blobs || name !in repo.blobs[t] {
        return Err(NotFound);
      }
      var data := repo.blobs[t][name];
      if offset >= |data| {
        return Ok([]);
      }
      var end := |data|;
      if length > 0 && BlobRange.Wrap(offset + length) < end {
        end := BlobRange.Wrap(offset + length);
      }
      if end < offset {
        return Err(Panicked);
      }
      return Ok(data[offset..end]);
    }

    method SaveBlob(key: string, t: string, name: string, data: CountingReader) returns (err: Option<Error>)
      requires Valid()
      modifies this, data
      ensures Valid()
      ensures State() == AfterSaveBlob(old(State()), key, t, name, old(data.Content()))
      ensures err == SaveBlobError(old(State()), key, t, name, old(data.Content()))
      ensures data.count == old(data.count) + |Concat(old(data.pending))|
    {
      var buf := ReadAll(data);
      if buf.None? {
        return Some(ReadFailed);
      }
      err := StoreBlob(key, t, name, buf.value);
    }

    /** The part of SaveBlob that runs under the lock. */
    method StoreBlob(key: string, t: string, name: string, buf: Bytes) returns (err: Option<Error>)
      requires Valid()
      modifies this
      ensures Valid()
      ensures State() == AfterSaveBlob(old(State()), key, t, name, Some(buf))
      ensures err == SaveBlobError(old(State()), key, t, name, Some(buf))
    {
      hide WellFormed;
      SaveBlobKeeps(State(), key, t, name, Some(buf));
      if key !in repos {
        return Some(RepoNotFound);
      }
      var blobs := repos[key].blobs;
      if t !in blobs {
        return Some(NotFound);
      }
      var newSize := |buf|;
      var oldSize := 0;
      if name in blobs[t] {
        oldSize := |blobs[t][name]|;
      }
      if usedBytes - oldSize + newSize > maxBytes {
        return Some(QuotaExceeded);
      }
      usedBytes := usedBytes - oldSize + newSize;
      repos := repos[key := repos[key].(blobs := blobs[t := blobs[t][name := buf]])];
      return None;
    }

    method DeleteBlob(key: string, t: string, name: string) returns (err: Option<Error>)
      requires Valid()
      modifies this
      ensures Valid()
      ensures State() == AfterDeleteBlob(old(State()), key, t, name)
      ensures err == if BlobOf(old(State()), key, t, name).None? then Some(NotFound) else None
    {
      hide WellFormed;
      DeleteBlobKeeps(State(), key, t, name);
      if key !in repos {
        return Some(NotFound);
      }
      var blobs := repos[key].blobs;
      if t !in blobs || name !in blobs[t] {
        return Some(NotFound);
      }
      usedBytes := usedBytes - |blobs[t][name]|;
      repos := repos[key := repos[key].(blobs := blobs[t := blobs[t] - {name}])];
      return None;
    }

    method ListBlobs(key: string, t: string) returns (blobs: seq<BlobInfo>)
      ensures IsListing(blobs, BucketOf(State(), key, t))
    {
      blobs := [];
      if key !in repos || t !in repos[key].blobs {
        return;
      }
      var bucket := repos[key].blobs[t];
      var rest := bucket;
      ghost var done: Bucket := map[];
      while rest != map[]
        invariant done.Keys !! rest.Keys && done + rest == bucket
        invariant IsListing(blobs, done)
        decreases |rest|
      {
        var name :| name in rest;
        ListingGrows(blobs, done, name, rest[name]);
        MoveEntry(done, rest, name);
        blobs := blobs + [BlobInfo(name, |rest[name]|)];
        done := done[name := rest[name]];
        rest := rest - {name};
      }
      assert done == bucket;
    }
  }

  lemma MoveEntry(done: Bucket, rest: Bucket, name: string)
    requires done.Keys !! rest.Keys && name in rest
    ensures done[name := rest[name]].Keys !! (rest - {name}).Keys
    ensures done[name := rest[name]] + (rest - {name}) == done + rest
  {
  }

  lemma ListingGrows(blobs: seq<BlobInfo>, done: Bucket, name: string, data: Bytes)
    requires IsListing(blobs, done) && name !in done
    ensures IsListing(blobs + [BlobInfo(name, |data|)], done[name := data])
  {
    var more := blobs + [BlobInfo(name, |data|)];
    assert more[..|more| - 1] == blobs;
    assert done[name := data] - {name} == done;
  }
}
