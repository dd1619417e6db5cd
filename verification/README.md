# ts-restic-server: verification of the storage, access and routing core

This project models the parts of ts-restic-server that keep state or decide access, and proves what
they promise over all inputs and whole runs. The pieces, one module each:

- `Text`, `RepoPrefix`: splitting, joining and rewriting of request paths.
- `Acl`: rule matching, the single-pass resolution of a permission, and the documented cascade.
- `BlobRange`: Range headers and the GET handler, on wrapping 64-bit integers.
- `IdentityCache`: the bounded FIFO cache with expiry, as a map into a doubly linked list.
- `MapSum`, `MemoryBackend`: the in-memory backend with its byte quota.
- `TrackedBackend`: the statistics wrapper and the balance between its counters and the stored bytes.
- `Server`: a request from path to handler, and what runs of requests keep (append-only above all).
- `Addresses`, `ServerAnswers`: the same requests seen by a client, by method and raw path: who is let
  through, what is answered, what is stored, and that reads give back what was written.
- `FileTree`, `BlobNames`, `FileBackend`, `BlobStore`: the filesystem backend with its sharded and flat
  layouts, the invariant of its directories and what each operation means on them.
- `BlobListing`: what a listing says, temporary files included.
- `SimpleStore`: a first-write-wins store that also knows which blobs lie in shards, which shards are
  there and which temporary files were left, and the proof that the filesystem backend refines it.
- `PlainStore`: with all shards there, no temporary file and ordinary names, it is a plain map.
- `NfsBackend`: the NFS variant, with its own `mkdirAll` (in `FileTree`), its fixed temporary names and
  its listing by shards, and the proof that it refines the same store.
- `SaveProtocol`, `InterleavedStore`: concurrent uploads as interleaved steps with failures and crashes,
  and the trees that they leave.
- `StorageLayout`: the path strings on disk, their injectivity, and the isolation of repositories.
- `FileServer`: requests over the filesystem backend, and what append-only runs keep there.
- `FileAnswers`: what a client of the filesystem backend sees, and that reads give back what was written.
- `ConfigProtocol`: concurrent uploads of a config, with the check and the save as separate steps.
- `EnvSubst`: placeholder substitution in configuration values.

Each imperative piece of the program (a loop, a method that changes fields) is a method proved against
a specification function; the lemmas are about these functions. A Go string is a sequence of bytes and
is modelled as a `string` with one char per byte. What the program takes from outside (clock, names of
temporary files, outcome of a write, chunking of a stream) is a parameter.

## Where the code and its documentation part

The model follows the code. Where a promise fails, the exact condition under which it holds is proved.

- "Deny is absolute" (docs/acl.md:71, internal/acl/acl.go:95): the fold tests for Deny from the second
  kept permission on, so a Deny that is kept first and is the only one is overruled by what follows
  (`FoldMeetsDocumentation`, `ResolveIsTheCascade`, `LeadingDenyIsOverruled`). For the same reason the
  answer depends on the order of rules in exactly that case (`OrderIrrelevant`).
- Repeated slashes are ignored, except that the system-route test looks at the raw path: `//-/x` is an
  ordinary path and `/-/x` is not (`RewriteIgnoresRepeatedSlashes`).
- A range that ends at 2^63-1 and starts inside the blob at 1 or later escapes the clamp, because
  offset + length wraps; every other closed range is answered as RFC 7233 says (`ClosedRangeServed`).
- On the filesystem backend a data blob whose name is two hex digits that name a shard directory is
  acknowledged and not stored: its flat path is that directory (`CollidingName`, `AcceptedIsReadable`).
  A DELETE under such a name removes the directory, with success, if and only if nothing is in it; until
  the repository is created again every name of the shard is refused, including blobs that lie flat
  (`DeletedShardIsRefused`, `CreateRepoShapes`).
- Temporary files lie beside the blobs (internal/storage/filesystem/filesystem.go:326), stay after a
  crash, and are not skipped by a listing (internal/storage/filesystem/filesystem.go:219-244): it is
  exact if and only if there is none below the type directory (`ListingIsExact`,
  `ListingDuringUploads`; a run that leaves one is `CrashLeavesTemp`).
- The NFS backend stores data blobs whose first two characters are not lowercase, but lists them only
  when they lie flat (`StoredIsListedIff`, `SavedIsListedIff`).
- An append-only mark "must not let [a handler] replace existing data"
  (internal/middleware/acl.go:77-79). The config handler asks for the mark, SaveBlob
  (internal/api/blob.go:106-130) does not: on the memory backend an existing blob is replaced if and
  only if the upload carries other bytes, is by someone who may write, and fits the quota
  (`Server.AppendOnlyContent`; an instance is `Server.AppendOnlyReplaces`). No name disappears
  (`Server.AppendOnlyRun`). On the filesystem backend the bytes stay as well.
- On the filesystem backend one repository may lie inside another. Append-only protects it there if
  and only if no repository around it is deleted (`FileServer.AppendOnlyStep`, `FileServer.HarmIsExact`;
  an instance is `FileServer.NestedIsLost`).
- Append-only clients "may create the config but not replace it" (internal/api/config_handler.go:52-53),
  but nothing holds the check and the save together. A config that is set stays for good if and only if
  every request that is past its check carries that config (`ConfigProtocol.WriteOnceIff`); two requests
  at once on an empty repository can both pass (`ConfigProtocol.RaceReplaces`).

## Model

| member | source | states |
|---|---|---|
| Text.JoinOfSplit | internal/middleware/repoprefix.go:74-88 | joining the parts of any string gives the string back |
| Text.SplitOfJoin | internal/middleware/repoprefix.go:74-88 | splitting any nonempty joined list of separator-free parts gives the list back |
| Text.CollapseKeepsSegments | internal/middleware/repoprefix.go:70-73 | cutting runs of slashes to one slash keeps the segments |
| RepoPrefix.SplitRepoPath | internal/middleware/repoprefix.go:74-88 | the loop returns the nonempty parts, all clean, or the error of the first rejected part |
| RepoPrefix.CheckedIsClean | internal/middleware/repoprefix.go:74-88 | a path is accepted iff no part is rejected, iff its segments are clean |
| RepoPrefix.FirstRejectedDecides | internal/middleware/repoprefix.go:74-88 | the first rejected part decides whether the error is traversal or invalid characters |
| RepoPrefix.Request.ApplyRepoPrefix | internal/middleware/repoprefix.go:30-68 | the middleware leaves path and prefix as the specified outcome says, and untouched when it bypasses or refuses |
| RepoPrefix.RewriteSplitsPath | internal/middleware/repoprefix.go:46-64 | prefix and API path have together exactly the segments of the path; the prefix has no API segment; the API path starts with one, or is "/" iff there is none |
| RepoPrefix.RewriteSameIff | internal/middleware/repoprefix.go:46-64 | two paths get the same outcome iff their segments agree and, when there is an API segment, their trailing slash |
| RepoPrefix.RewriteIgnoresRepeatedSlashes | internal/middleware/repoprefix.go:35-38 | collapsing slashes changes nothing iff the collapsed path is no system route or was not changed |
| RepoPrefix.RepeatedSlashCounterexample | internal/middleware/repoprefix.go:35-38 | a path for which it changes the outcome |
| RepoPrefix.RewriteIsNormalForm | internal/middleware/repoprefix.go:46-64 | rewriting the path rebuilt from prefix and API path gives the same pair iff the rebuilt path is no system route |
| Acl.New | internal/acl/acl.go:73-87 | rules are normalized in place up to the first incomplete one, which decides the error |
| Acl.MatchIdentity | internal/acl/acl.go:196-208 | the search finds a match iff the rule names "*" or one of the identities |
| Acl.MatchIsSegmentPrefix | internal/acl/acl.go:159-192 | the string test matches iff the rule's segments are a prefix of the request's, and the depth is their number |
| Acl.SameDepthSamePath | internal/acl/acl.go:181-192 | two rule paths matching one request at one depth are the same path |
| Acl.RuleSegmentsAsWritten | internal/acl/acl.go:158-167 | a rule path asks for the segments it is written with, with or without a leading slash and whatever slashes it ends in |
| Acl.Engine.Resolve | internal/acl/acl.go:98-141 | the single pass and fold compute the specified permission |
| Acl.Engine.DenyOrHighest | internal/acl/acl.go:127-140 | the closing loop computes the fold over the kept permissions |
| Acl.Engine.Allowed | internal/acl/acl.go:144-156 | read needs more than deny, write at least append-only, delete full access |
| Acl.BestDepthIsGreatest | internal/acl/acl.go:101-121 | the kept depth is that of a match and no match is deeper |
| Acl.PermissionsAtMembers | internal/acl/acl.go:113-119 | the kept permissions are exactly those of the matches at that depth |
| Acl.FoldExact | internal/acl/acl.go:127-140 | the fold gives Deny when a later entry is Deny and otherwise the highest of all |
| Acl.FoldMeetsDocumentation | internal/acl/acl.go:89-97 | the fold follows the deny-absolute rule iff the kept list does not start with its only Deny |
| Acl.CoveringFoldIsDocumented | internal/acl/acl.go:127-140 | the same fold started below the entries follows the rule always |
| Acl.LeadingDenyIsOverruled | internal/acl/acl.go:127-140 | two rules whose order decides between full access and deny |
| Acl.OrderIrrelevant | internal/acl/acl.go:98-121 | permuting rules and paths keeps best depth and kept multiset, and keeps the answer iff both orders agree on a lone leading Deny |
| Acl.ShallowRuleIrrelevant | internal/acl/acl.go:98-121 | inserting a rule that matches only at shallower depth never changes the answer |
| Acl.MatchesMeaning | internal/acl/acl.go:104-112 | the matches are the (rule, path) pairs as written that name an identity and prefix the request |
| Acl.ResolveIsTheCascade | internal/acl/acl.go:89-141 | on rules as written: default without an applicable rule, else Deny or the highest at the greatest depth, iff the kept list has no lone leading Deny |
| Acl.ClosestRuleDecides | internal/acl/acl.go:98-141 | a rule that names "*" or an identity of the request and lies closer than every other applicable rule decides, wherever it stands |
| Acl.StrangersRuleIrrelevant | internal/acl/acl.go:196-208 | a rule that names neither "*" nor an identity of the request never changes the answer |
| BlobRange.ParseClosedRange | internal/api/blob.go:165-201 | a header with two numerals is read back, the full range wrapping to -2^63 |
| BlobRange.ParseOpenRange | internal/api/blob.go:186-189 | a header with one numeral means "to the end" |
| BlobRange.DecimalIsNumeral | internal/api/blob.go:181-191 | every printed int64 is read back as itself |
| BlobRange.ParsedRangeBounds | internal/api/blob.go:165-201 | offset and length of any parsed header, whatever its text |
| BlobRange.ParseIntReads | internal/api/blob.go:181-191 | a decimal numeral with or without a sign is read as its value iff that is an int64 |
| BlobRange.Understood | internal/api/blob.go:165-201 | which headers are understood at all: two forms, numbers that parse, are not negative and are in order; all others mean the whole blob |
| BlobRange.WholeServed | internal/api/blob.go:93-103 | without a range both backends give the whole blob |
| BlobRange.BackendsAgree | internal/storage/memory/memory.go:167-175 | the memory slice and the file section are the same bytes wherever offset + length does not wrap |
| BlobRange.ClosedRangeServed | internal/api/blob.go:65-90 | the answer is the one RFC 7233 asks for iff the range does not end at 2^63-1 after starting inside at 1 or later |
| BlobRange.OpenRangeServed | internal/api/blob.go:65-90 | an open range is the range to the last byte, or 416 iff it starts past the end |
| BlobRange.OverflowingRange | internal/api/blob.go:71-90 | what both backends do with the excepted ranges |
| BlobRange.PartialIsConsistent | internal/api/blob.go:54-90 | 416 iff start >= total; a 206 has ordered positions, Content-Length equal to the body and the body at those positions |
| BlobRange.AdjacentRangesCover | internal/api/blob.go:54-90 | the bodies of adjacent ranges concatenate to the bytes they cover |
| IdentityCache.OrderList.Remove | internal/middleware/identity.go:89-92 | the node leaves the ring and the others keep their order |
| IdentityCache.OrderList.PushBack | internal/middleware/identity.go:109-110 | a new node joins at the back |
| IdentityCache.Cache.Get | internal/middleware/identity.go:70-82 | the value iff the key is there and not expired; nothing changes |
| IdentityCache.Cache.Set | internal/middleware/identity.go:84-111 | old entry removed, oldest evicted at capacity, new entry at the back; map and list still agree |
| IdentityCache.ByKeyAt | internal/middleware/identity.go:53-59 | when map and list agree, each list node is the map entry of its key |
| IdentityCache.ByKeySize | internal/middleware/identity.go:95 | when map and list agree, they have the same size |
| IdentityCache.RunIsLastSets | internal/middleware/identity.go:84-111 | after any history the cache holds the last Sets of the most recently set keys, as many as fit, in that order |
| IdentityCache.GetAfterHistory | internal/middleware/identity.go:230-272 | Get finds the last value of a key iff it is unexpired and fewer than capacity other keys were set since |
| IdentityCache.GetNeverSet | internal/middleware/identity.go:70-82 | a key never set is never found |
| IdentityCache.EvictedExpiresFirst | internal/middleware/identity.go:94-102 | under a nondecreasing clock expiries ascend from front to back, so the evicted entry expires first |
| MemoryBackend.ReadAll | internal/storage/memory/memory.go:107-110 | reading chunk by chunk gives the whole content or the error, and counts every byte |
| MemoryBackend.Backend.CreateRepo | internal/storage/memory/memory.go:36-53 | a new empty repository, or an error and no change |
| MemoryBackend.Backend.DeleteRepo | internal/storage/memory/memory.go:55-77 | the nested loops return exactly the bytes of the repository |
| MemoryBackend.Backend.SaveConfig | internal/storage/memory/memory.go:106-129 | the new state and the error, with the quota test after replacement |
| MemoryBackend.Backend.SaveBlob | internal/storage/memory/memory.go:178-209 | the new state and the error, with the quota test after replacement |
| MemoryBackend.Backend.GetBlob | internal/storage/memory/memory.go:150-176 | the requested section of the blob for any positions; where offset + length wraps below the offset, the slice is out of bounds |
| MemoryBackend.Backend.DeleteBlob | internal/storage/memory/memory.go:211-231 | the blob and its bytes go, or nothing changes |
| MemoryBackend.Backend.ListBlobs | internal/storage/memory/memory.go:233-251 | each name of the bucket once, with its size |
| MemoryBackend.ListingMeaning | internal/storage/memory/memory.go:246-250 | a listing has as many entries as the bucket, distinct names, and exactly the bucket's names and sizes |
| MemoryBackend.ListingIsInfos | internal/storage/memory/memory.go:246-250 | the entries of a listing, as a multiset, are one for each blob of the bucket |
| MemoryBackend.SaveFitsQuota | internal/storage/memory/memory.go:196-208 | a save goes through iff everything then stored fits; a failed one changes nothing |
| MemoryBackend.ConfigFitsQuota | internal/storage/memory/memory.go:120-128 | the same for the config |
| MemoryBackend.SaveBlobKeeps | internal/storage/memory/memory.go:178-209 | usedBytes stays the sum of all stored lengths and within the quota |
| MemoryBackend.SaveConfigKeeps | internal/storage/memory/memory.go:106-129 | the same after saving a config |
| MemoryBackend.DeleteBlobKeeps | internal/storage/memory/memory.go:211-231 | the same after deleting a blob |
| MemoryBackend.DeleteRepoKeeps | internal/storage/memory/memory.go:55-77 | the same after deleting a repository |
| TrackedBackend.Store.RecordWrite | internal/stats/store.go:85-95 | the upsert adds to the row of the repository, new or old |
| TrackedBackend.Store.RecordRead | internal/stats/store.go:98-108 | the same for reads |
| TrackedBackend.Store.RecordDelete | internal/stats/store.go:111-121 | the same for deletions |
| TrackedBackend.Stream | internal/storage/tracked/tracked.go:117-136 | reads of any sizes deliver a prefix of the body, and closing records exactly its length |
| TrackedBackend.Tracked.SaveConfig | internal/storage/tracked/tracked.go:57-64 | the backend's step and error, and on success the uploaded bytes recorded |
| TrackedBackend.Tracked.SaveBlob | internal/storage/tracked/tracked.go:82-89 | the backend's step and error, and on success the uploaded bytes recorded |
| TrackedBackend.Tracked.DeleteBlob | internal/storage/tracked/tracked.go:91-99 | the backend's step and error, and on success the size before it recorded |
| TrackedBackend.Tracked.ServeBlob | internal/storage/tracked/tracked.go:70-80 | the delivered bytes of a download recorded |
| TrackedBackend.Tracked.ServeConfig | internal/storage/tracked/tracked.go:45-55 | the delivered bytes of a config download recorded |
| TrackedBackend.StepBalances | internal/storage/tracked/tracked.go:57-99 | one operation keeps the byte balance of its own repository and of every other |
| TrackedBackend.RunBalances | internal/storage/tracked/tracked.go:57-99 | over every run: written = live + deleted + overwritten + dropped, and read = delivered, per repository |
| TrackedBackend.StepRows | internal/storage/tracked/tracked.go:25-115 | an operation adds what it moved to the row of its repository, "/" for the root and else its name, and touches no row when it moved nothing |
| TrackedBackend.RunSummary | internal/stats/store.go:169-187 | over every run the six sums of the summary grow by the traffic of all operations, and written = used + deleted + lost against the quota counter |
| TrackedBackend.RunRows | internal/stats/store.go:169-187 | over every run the rows counted by the summary are those of before and one for each repository with traffic |
| TrackedBackend.FreshServerBalances | internal/stats/store.go:169-187 | all balances and the quota bound, from an empty server: the summary is the traffic of the run, bytes read are the bytes delivered, and it counts the repositories with traffic |
| Server.Handler.ServeHTTP | internal/middleware/acl.go:23-73 | rewriting, access check and dispatch compute the specified answer, with its body or entries, and state |
| Server.Handler.Dispatch | internal/api/router.go:53-67 | every handler computes the specified answer, with its body or entries, and state |
| Server.Handler.HandleSaveConfig | internal/api/config_handler.go:46-75 | the append-only check, then the save |
| Server.Handler.HandleSaveBlob | internal/api/blob.go:106-130 | the target checks, then the save |
| Server.Handler.HandleGetBlob | internal/api/blob.go:40-104 | the target checks, then the download, whole or for the Range header |
| Server.Handler.ServeDownload | internal/api/blob.go:52-103 | stat, range check, clamp and read on the backend give the answer that BlobRange specifies for the blob and the Range header |
| Server.PrefixIsNotSlash | internal/storage/tracked/tracked.go:25-31 | the root repository shares its counter row with no other |
| Server.RequestIsIsolated | internal/middleware/repoprefix.go:46-64 | a request changes no repository but the one it addresses |
| Server.FailureChangesNothing | internal/api/blob.go:106-159 | an answer other than 200, a GET and a HEAD leave the state as it was |
| Server.ReadersChangeNothing | internal/middleware/acl.go:43-66 | an identity without at least append-only changes nothing |
| Server.DownloadServesRange | internal/api/blob.go:40-104 | a permitted GET with a closed range is answered as RFC 7233 asks, end to end, iff the range does not end at 2^63-1 after starting inside at 1 or later |
| Server.DeleteIsClassified | internal/middleware/acl.go:112-126 | a blob deletion counts as a write iff its type is "locks" |
| Server.RoutesAreClassified | internal/middleware/acl.go:112-126 | the routes that remove something are deletions, saving a config is a write |
| Server.AppendersAreGuarded | internal/middleware/acl.go:43-69 | a request that may only append is refused or reaches its handler as an appending one |
| Server.QuotaHolds | internal/storage/memory/memory.go:18-23 | over every run usedBytes is the number of stored bytes, within 0 and the quota |
| Server.AppendOnlyStep | internal/api/blob.go:144-147 | one appending request keeps the repository, its config and all names of blobs that are no locks |
| Server.AppendOnlyRun | internal/api/config_handler.go:52-63 | the same over every run, other repositories being treated in any way |
| Server.AppendOnlyRunBetween | internal/api/repo.go:37-39 | the same between any two moments of a run |
| Server.AppendOnlyContent | internal/middleware/acl.go:77-82 | an appending request replaces a blob's bytes iff it is an upload of other bytes under its name, by someone who may write, that fits the quota |
| Server.AppendOnlyReplaces | internal/api/blob.go:106-130 | an append-only identity posts other bytes under the name of a data blob, and the blob has them |
| Addresses.PathIsNamed | internal/middleware/repoprefix.go:30-68 | a path is a system route, has a refused part, or names a repository and a part of its API |
| Addresses.NamedOnce | internal/middleware/repoprefix.go:46-64 | and names only one of each |
| Addresses.WrittenIsNamed | internal/middleware/repoprefix.go:46-64 | the path a client writes for a repository and a part of its API names them |
| Addresses.NamedIsRewritten | internal/middleware/repoprefix.go:46-64 | the rewrite of a raw path in terms of what it names |
| Addresses.RootRoutes | internal/api/router.go:54-55 | "/" has POST and DELETE |
| Addresses.ConfigRoutes | internal/api/router.go:58-60 | "/config" has HEAD, GET and POST |
| Addresses.ListRoutes | internal/api/router.go:63 | "/type/" has GET, and "/type" nothing |
| Addresses.BlobRoutes | internal/api/router.go:64-67 | "/type/name" has HEAD, GET, POST and DELETE, the name being all that follows |
| ServerAnswers.AccessDecides | internal/middleware/acl.go:43-69 | for every request by method and raw path: denied gives 403; read-only reads as everybody and is refused the rest; append-only is answered as everybody but for deletions of other things than locks and for replacing a config; full access as everybody |
| ServerAnswers.PermissionIsTheCascade | internal/middleware/acl.go:37-43 | the permission is the cascade of the rules as written, for the segments of the repository named by the path, and for the identities of the request or else its address |
| ServerAnswers.Download | internal/api/blob.go:93-103 | a permitted GET without a range is answered with exactly the stored bytes, or 404 iff there is no blob |
| ServerAnswers.RangeDownload | internal/api/blob.go:54-90 | a permitted GET of the path with a closed range gets the RFC answer iff the range does not end at 2^63-1 after starting inside at 1 or later |
| ServerAnswers.Probe | internal/api/blob.go:16-38 | a HEAD is answered with the length, or 404 |
| ServerAnswers.Upload | internal/api/blob.go:106-130 | a POST stores the body and changes nothing else, or is answered 500 (failed upload, no repository) or 507 (quota) and changes nothing |
| ServerAnswers.Removal | internal/api/blob.go:132-159 | a DELETE removes the blob and nothing else, or is answered 404 or, under append-only, 403 |
| ServerAnswers.ListDownload | internal/api/list.go:14-43 | GET of "/type/" has one entry for each blob of the type, with its length, and no other |
| ServerAnswers.ConfigDownload | internal/api/config_handler.go:14-44 | GET and HEAD of "/config" give the stored config and its length, or 404 |
| ServerAnswers.ConfigUpload | internal/api/config_handler.go:46-75 | POST of "/config" stores it and changes nothing else, or is answered 403, 500 or 507 and changes nothing |
| ServerAnswers.Creation | internal/api/repo.go:13-31 | POST of "/" makes an empty repository when asked to and there is none, and changes no other |
| ServerAnswers.RepoRemoval | internal/api/repo.go:33-51 | DELETE of "/" removes the repository, gives its bytes back and changes no other |
| ServerAnswers.Unnamed | internal/middleware/repoprefix.go:35-44 | system paths are not served here; a part that is ".", "..", or holds a zero byte or a backslash gives 400 |
| ServerAnswers.OtherRequests | internal/api/router.go:53-67 | every other method and path is answered 404, bad types and names 400 |
| ServerAnswers.UploadIsDownloaded | internal/api/blob.go:40-130 | over every run: an accepted upload is what every later download gives, until somebody posts or deletes under its name or deletes the repository |
| ServerAnswers.RemovedIsMissing | internal/api/blob.go:132-159 | over every run: a removed blob is answered 404 until somebody posts under its name |
| ServerAnswers.ConfigIsServed | internal/api/config_handler.go:29-65 | over every append-only run: the config that was there is what GET of "/config" answers |
| BlobNames.Hex2IsBijection | internal/storage/nfs/nfs.go:413-414 | "%02x" maps 0..255 one to one onto the shard names |
| BlobNames.ValidNamesAreHex | internal/storage/types.go:26-33 | blob names are exactly the nonempty strings over the 22 hex digits |
| FileTree.Target.MkdirAll | internal/storage/nfs/nfs.go:459-489 | the recursion terminates and computes the specified tree and result |
| FileTree.MkdirAllAdds | internal/storage/nfs/nfs.go:459-489 | even when it fails midway only ancestor directories are added and the tree stays closed |
| FileTree.MkdirAllSucceeds | internal/storage/nfs/nfs.go:459-489 | it succeeds iff no ancestor is a file and no missing one is refused |
| FileTree.MkdirAllMakesPath | internal/storage/nfs/nfs.go:459-489 | on success every ancestor is a directory |
| FileBackend.Backend.CreateRepo | internal/storage/filesystem/filesystem.go:36-58 | the two loops create the listed directories up to the first failure |
| FileBackend.Backend.DeleteRepo | internal/storage/filesystem/filesystem.go:60-69 | everything below the repository goes, or there is none, or the path is refused |
| FileBackend.Backend.StatConfig | internal/storage/filesystem/filesystem.go:71-77 | the size of the config or the error |
| FileBackend.Backend.GetConfig | internal/storage/filesystem/filesystem.go:79-92 | the config or the error |
| FileBackend.Backend.SaveConfig | internal/storage/filesystem/filesystem.go:94-104 | the config is replaced, also when there is one |
| FileBackend.Backend.AtomicWrite | internal/storage/filesystem/filesystem.go:324-358 | the file is there whole, or, whichever step fails, the rename onto a directory included, the tree is as it was |
| FileBackend.Backend.SaveBlob | internal/storage/filesystem/filesystem.go:159-186 | validation, the two existence checks, then the write |
| FileBackend.Backend.StatBlob | internal/storage/filesystem/filesystem.go:106-121 | the sharded place, then the flat one |
| FileBackend.Backend.GetBlob | internal/storage/filesystem/filesystem.go:123-157 | the requested section of the blob in the first place that has it |
| FileBackend.Backend.DeleteBlob | internal/storage/filesystem/filesystem.go:188-210 | the blob is removed from the first place that has it |
| FileBackend.Backend.ListBlobs | internal/storage/filesystem/filesystem.go:212-252 | the walk lists each regular file below the type directory once |
| BlobStore.CreateRepoShapes | internal/storage/filesystem/filesystem.go:36-58 | creating a repository over blobs in either layout gives the store's invariant and all 256 shards, and keeps every blob |
| BlobStore.StatMeaning | internal/storage/filesystem/filesystem.go:106-121 | a stat answers the length of the blob, wherever it lies; refused without the shard; a shard directory answers for itself |
| BlobStore.GetMeaning | internal/storage/filesystem/filesystem.go:123-157 | a get answers the blob, wherever it lies, or the exact error |
| BlobStore.SaveMeaning | internal/storage/filesystem/filesystem.go:165-185 | a save is first-write-wins, also when the write fails, refused without the shard, and dropped under the name of a shard directory |
| BlobStore.DeleteMeaning | internal/storage/filesystem/filesystem.go:188-210 | a delete removes the blob, reports that there is none, is refused without the shard, or removes an empty shard directory |
| BlobStore.UnstorableMeaning | internal/storage/filesystem/filesystem.go:282-306 | names whose shard directory is missing are refused by every operation, even if the blob lies flat and is listed |
| BlobStore.CollidingName | internal/storage/filesystem/filesystem.go:173-199 | save, stat, get and delete under the name of a shard directory: the upload is dropped, the delete removes the directory iff it is empty |
| BlobStore.DeletedShardIsRefused | internal/storage/filesystem/filesystem.go:188-210 | after that delete no blob is gone from the tree, but every operation on a name of the shard is refused, while a listing still shows the flat blobs |
| BlobStore.AcceptedIsReadable | internal/storage/filesystem/filesystem.go:173-180 | an accepted upload can be read back iff its name is not that of a shard directory without a blob of that name |
| BlobListing.ListedIsInfos | internal/storage/filesystem/filesystem.go:219-244 | the entries of a listing, as a multiset, are one for each file |
| BlobListing.ListingIsExact | internal/storage/filesystem/filesystem.go:219-244 | a listing names every stored blob once, with its size, and has one entry for each temporary file; it is exact iff there is none below the type directory |
| SimpleStore.EveryShapeStandsFor | internal/storage/filesystem/filesystem.go:106-252 | every well-shaped tree, temporary files and both layouts included, stands for a simple store |
| SimpleStore.StepRefines | internal/storage/filesystem/filesystem.go:106-252 | save, stat, get, delete and list, on every target that the handlers let through, answer as on the simple store and keep tree and store together |
| SimpleStore.RunRefines | internal/storage/filesystem/filesystem.go:106-252 | the same for every sequence of requests, from any well-shaped tree; no data blob is ever in both places |
| PlainStore.RunIsPlain | internal/storage/filesystem/filesystem.go:106-252 | with all 256 shards there, no temporary file and ordinary names the simple store answers as a plain map, a listing as its values, and the shards stay |
| PlainStore.RunTreeIsPlain | internal/storage/filesystem/filesystem.go:106-252 | so does the filesystem backend, over every sequence of such requests, flat and sharded blobs alike |
| NfsBackend.Backend.AtomicWrite | internal/storage/nfs/nfs.go:423-456 | create, write, close and rename through the fixed temporary name leave the whole file, or on a fault what was there before without the temporary file |
| NfsBackend.Backend.SaveBlob | internal/storage/nfs/nfs.go:313-337 | the upload is read first, then the two existence checks, mkdirAll and the write |
| NfsBackend.Backend.DeleteBlob | internal/storage/nfs/nfs.go:339-361 | the file is removed from the first place that has it; directories are not removed |
| NfsBackend.AgreesWithFileBackend | internal/storage/nfs/nfs.go:244-361 | where the shard of the target is there, stat, get and save do what the filesystem backend does, and delete does iff the name is not that of an empty shard directory |
| NfsBackend.Lister.ListDir | internal/storage/nfs/nfs.go:382-404 | the regular files of one directory are appended, each once |
| NfsBackend.Lister.ListShardedBlobs | internal/storage/nfs/nfs.go:408-420 | on any tree the flat directory and the 256 lowercase shards are listed, each file once |
| NfsBackend.StepRefines | internal/storage/nfs/nfs.go:244-420 | every operation, on every target that the handlers let through and every well-shaped tree, answers as on the simple store and keeps the shape |
| NfsBackend.RunRefines | internal/storage/nfs/nfs.go:244-420 | the same for every sequence of requests, whatever shard directories the names create |
| NfsBackend.StoredIsListedIff | internal/storage/nfs/nfs.go:408-420 | on every well-shaped tree a stored data blob is listed iff it lies flat or its first two characters are lowercase |
| NfsBackend.SavedIsListedIff | internal/storage/nfs/nfs.go:313-337 | a faultless upload succeeds; it is stored iff its name is not that of a shard directory, and then listed iff its first two characters are lowercase |
| SaveProtocol.StepKeepsInv | internal/storage/filesystem/filesystem.go:159-186 | every step of any writer, failure, crash or deletion, and of shard directories that come and go, keeps the invariant |
| SaveProtocol.StepKeepsOpen | internal/storage/filesystem/filesystem.go:159-199 | and what lies in a shard lies in a directory that is there, although empty shard directories are removed between an upload's steps |
| SaveProtocol.EveryInterleaving | internal/storage/filesystem/filesystem.go:324-358 | in every interleaving a place is empty, as at the start, or one writer's whole payload; never two places; temporary files belong to live or crashed writers |
| SaveProtocol.ContentNeverChanges | internal/storage/filesystem/filesystem.go:165-172 | with equal bytes per name and no deletions content never changes, and every acknowledged upload is stored, unless it found a shard directory |
| InterleavedStore.InterleavingKeepsShape | internal/storage/filesystem/filesystem.go:159-199 | any interleaving of uploads, failures, crashes, deletions and removals of shard directories, from a well-shaped tree, leaves a well-shaped tree, to which SimpleStore applies |
| InterleavedStore.TreeAtInit | internal/storage/filesystem/filesystem.go:36-58 | the tree of the state in which the uploads begin is the tree itself |
| InterleavedStore.ListingDuringUploads | internal/storage/filesystem/filesystem.go:219-244 | a listing at such a moment is exact iff no temporary file lies below the type; each one there belongs to the start, a live or a crashed writer; without these the listing is exact |
| InterleavedStore.CrashLeavesTemp | internal/storage/filesystem/filesystem.go:324-358 | on any well-shaped repository an upload that crashes in its write leaves a temporary file, and no listing of the type is exact from then on |
| StorageLayout.PathStrings | internal/storage/filesystem/filesystem.go:254-280 | for every storage directory, relative or absolute, the built path strings are the cleaned directory followed by the segments of the model |
| StorageLayout.CleanIsIdempotent | internal/storage/filesystem/filesystem.go:254-280 | cleaning a cleaned path changes nothing |
| StorageLayout.LayoutIsInjective | internal/storage/filesystem/filesystem.go:254-280 | distinct (prefix, type, name) have distinct paths; flat, sharded and config paths meet only where a one-character name is flat by design |
| StorageLayout.TypeDirectoriesHoldNoRepository | internal/middleware/repoprefix.go:15-22 | no repository lies in a type directory, and the base name of a blob's path is its name |
| StorageLayout.OperationsAreIsolated | internal/storage/filesystem/filesystem.go:254-280 | an operation on one repository, whatever it looks like, leaves everything of every other one as it is |
| StorageLayout.DeleteRepoReaches | internal/storage/filesystem/filesystem.go:60-69 | deleting a repository keeps another one's blobs iff its prefix does not extend the deleted one's, or it had none |
| FileServer.AppendOnlyStep | internal/api/config_handler.go:52-63 | under a request that may only append, a repository keeps its config and its blobs byte for byte iff the request does not delete a repository that is there around it while it holds any |
| FileServer.AppendOnlyRun | internal/api/repo.go:37-39 | the same over every run in which no repository around it is deleted, all others being treated in any way |
| FileServer.HarmIsExact | internal/storage/filesystem/filesystem.go:60-69 | such a deletion occurs in a run iff some request of the run takes something away |
| FileServer.NestedIsLost | internal/storage/filesystem/filesystem.go:60-69 | a repository inside another loses its config to a deletion of the outer one, by a request that does not address it |
| FileServer.Handler.HandleCreateRepo | internal/api/repo.go:13-31 | the specified tree and status |
| FileServer.Handler.HandleDeleteRepo | internal/api/repo.go:33-51 | the append-only switch, then the removal, with its statuses |
| FileServer.Handler.HandleSaveConfig | internal/api/config_handler.go:46-75 | the guarded stat with its statuses, then the save |
| FileServer.Handler.HandleSaveBlob | internal/api/blob.go:106-130 | the target checks, then the save, with its statuses |
| FileServer.Handler.HandleDeleteBlob | internal/api/blob.go:132-159 | the target checks and the append-only rule, then the removal, with its statuses |
| FileAnswers.ConfigReads | internal/storage/filesystem/filesystem.go:71-92 | on every tree in which entries lie in directories: the config is d iff a file at its path holds d, with the exact condition of every error |
| FileAnswers.ConfigSaves | internal/storage/filesystem/filesystem.go:94-104 | when a save succeeds, that it changes the config and nothing else, and that it is read back with its length |
| FileAnswers.AccessDecides | internal/middleware/acl.go:43-69 | the access table of the memory server, for the filesystem backend |
| FileAnswers.Download | internal/api/blob.go:93-103 | a permitted GET without a range gives exactly the stored bytes, flat or sharded, or 404; refused without the shard; a shard directory opens |
| FileAnswers.RangeDownload | internal/api/blob.go:54-90 | a permitted GET with a closed range, under the same exact condition |
| FileAnswers.Probe | internal/api/blob.go:16-38 | a HEAD gives the length, or the same exceptions |
| FileAnswers.Upload | internal/api/blob.go:106-130 | a POST under a free name stores the body; under a taken name nothing changes; every other blob stays |
| FileAnswers.Removal | internal/api/blob.go:132-159 | a DELETE removes the blob, flat or sharded, and no other |
| FileAnswers.ListDownload | internal/api/list.go:14-43 | GET of "/type/" lists what the simple store of the tree lists |
| FileAnswers.ListOfMissing | internal/storage/filesystem/filesystem.go:212-252 | without the type directory the listing is empty, without the repository refused |
| FileAnswers.MissingRepo | internal/storage/filesystem/filesystem.go:282-306 | blob requests to a repository that is not there are answered 500 and change nothing |
| FileAnswers.ConfigDownload | internal/api/config_handler.go:14-44 | GET and HEAD of "/config": the stored bytes and their number, 404 iff the repository has none |
| FileAnswers.ConfigUpload | internal/api/config_handler.go:46-75 | POST of "/config" puts it there and changes nothing else, or changes nothing |
| FileAnswers.Creation | internal/api/repo.go:13-31 | POST of "/" adds directories only, succeeds iff no file is in the way, and then gives a well-shaped repository with all shards |
| FileAnswers.RepoRemoval | internal/api/repo.go:33-51 | DELETE of "/" removes exactly what lies in the directory of the repository |
| FileAnswers.Unnamed | internal/middleware/repoprefix.go:35-44 | system and refused paths |
| FileAnswers.OtherRequests | internal/api/router.go:53-67 | every other method and path is answered 404, bad types and names 400 |
| FileAnswers.RequestKeepsClosed | internal/api/router.go:53-67 | whatever is asked for, every entry still lies in a directory |
| FileAnswers.RequestKeepsShape | internal/api/router.go:53-67 | a repository stays well shaped under every request, to itself or another, that does not delete it or one around it |
| FileAnswers.RequestKeepsBlob | internal/storage/filesystem/filesystem.go:165-172 | and keeps a blob in its place with its bytes, unless the request deletes it |
| FileAnswers.UploadIsDownloaded | internal/api/blob.go:40-130 | over every run: a new upload that is accepted is what every later download gives until it or a repository around it is deleted, further uploads under its name included |
| FileAnswers.ConfigIsServed | internal/api/config_handler.go:29-65 | over every append-only run in which no repository around is deleted: the config that was there is what GET of "/config" answers |
| ConfigProtocol.WriteOnceIff | internal/api/config_handler.go:46-75 | a config that is set stays over all interleavings of guarded requests iff every request past its check carries it |
| ConfigProtocol.SerialIsWriteOnce | internal/api/config_handler.go:46-75 | when each check is made while no other request is past its own, a config never changes once set |
| ConfigProtocol.RaceReplaces | internal/api/config_handler.go:52-65 | two append-only requests that both pass the check, the second replacing the first |
| EnvSubst.UnparseTokens | internal/config/envsubst.go:10 | the leftmost matches and the characters between them make up the string |
| EnvSubst.LeftmostIsUnique | internal/config/envsubst.go:10 | there is one such reading |
| EnvSubst.SubstituteString | internal/config/envsubst.go:60-77 | one pass replaces each leftmost match by its value as it is; after the first error the rest is copied |
| EnvSubst.StrictMode | internal/config/envsubst.go:60-77 | strict mode fails iff some placeholder is unset and names the first; the modes agree iff none is |
| EnvSubst.LenientIdentity | internal/config/envsubst.go:60-77 | with no variable set a lenient pass changes nothing |
| EnvSubst.LeftmostPlaceholder | internal/config/envsubst.go:60-77 | in strings: what stands before the leftmost placeholder is kept, a set variable gives its value as it is, then what the rest becomes; an unset one stays, or in strict mode is the error and everything from it on stays |
| EnvSubst.PlainStays | internal/config/envsubst.go:60-77 | a string without a placeholder is its own result |
| EnvSubst.PlainOrPlaceholder | internal/config/envsubst.go:10 | every string is of one of the two kinds |
| EnvSubst.ResolveIsFlat | internal/config/envsubst.go:23-58 | a nested configuration is treated as the flat list of its strings, in order, up to the first error, and nothing but strings changes |
| EnvSubst.ResolveReaches | internal/config/envsubst.go:23-58 | after a walk without an error every string, at whatever position, is what its substitution gives |

## Left out

- HTTP itself, JSON bodies, logging, metrics, security headers, panic recovery, the web UI and the system routes below `/-/`: no state of this model depends on them. Routing is a function of verb and rewritten path; where Echo, which is not part of this model, tells a path without this method (405) from an unknown path (404), the model has one answer, 404.
- The S3, WebDAV, rclone and SMB backends: clients of libraries that are not part of this model.
- Reverse DNS, WhoIs and the identity lists built from them: external answers; an identity list is an input.
- Symbolic links in storage paths: the storage directory is taken to hold none, so `validatePath` only asks for an existing parent.
- The SQL database: a row is an entry of a map, recording never fails, timestamps and the order of rows are dropped.
- Locks in the memory backend and the caches: each operation holds its lock throughout, so operations are atomic here. In Server and FileServer the config check and the config save of one request are one step; ConfigProtocol takes them apart.
- MemoryBackend.Backend.SaveBlob: counts bytes in unbounded integers; everything counted is held in memory at that moment, which stays far below 2^63 bytes. Repository records are values in the map, not shared objects behind pointers.
- Server.Handler.ServeHTTP: takes the type segment as it stands after the rewrite, which cuts only at lowercase API segments, so lowercasing it changes nothing; the entries of a listing are a multiset.
- FileBackend.Backend.ListBlobs: lists in any order; the walk's lexical order is not modelled.
- FileBackend.Backend.AtomicWrite: the unused temporary name is an argument, as os.CreateTemp guarantees it.
- FileServer.AppendOnlyRun: the base directory is taken to exist, also after the root repository was deleted. The middleware and the reading routes of the filesystem server are functions here; Server has them as methods.
- InterleavedStore.InterleavingKeepsShape: the type directories stay; deleting the repository during uploads is not a step of SaveProtocol.
- The config and the creation and deletion of a repository on the NFS backend (internal/storage/nfs/nfs.go:154-242): mkdirAll and the atomic write of this model without the path validation of the filesystem backend; they would only add easy members.
- NfsBackend.Backend.AtomicWrite: the library's Create, on a temporary file that an earlier write left, is taken to fail or to leave an empty file. Reconnection is not modelled; all NFS operations are serialized by one mutex.
- A clean-up that fails after a failed write: it leaves what a crash leaves.
- EnvSubst.ResolveIsFlat: the walk is modelled on values, so it says what the configuration holds afterwards, also after an error, but not that it is updated in place.
- The content of a crashed machine's disk after losing unsynced data: a crash here stops a writer between two steps.
