# PowerLab backend: a verified model

PowerLab is a home-server panel; its backend is a set of Go services. Most of
them pass requests on to Docker, a database or the file system. This project
models the parts that decide something themselves, where the answer depends on
loops, on an arbitrary order (Go maps, interleaved requests) or on which step
fails, and proves what those parts are there to guarantee.

| module | what it is |
|---|---|
| `PortAllocator` | host ports of an app about to be installed: conflicting groups move together, metadata follows |
| `PortStability` | exactly when allocating moves nothing, in no order |
| `ChunkUpload` | chunked uploads: concurrent calls that open, write at an offset, mark, and rename after the last chunk |
| `TokenCache` | token validation behind two shared caches |
| `StoreReading` | reading an app store from its files, some of which may silently go unread |
| `CatalogUpdate` | the refresh of an app store: download, backup, swap, undo, and the caches beside it |
| `LogStream` | the install log: history, bounded channels, replay, closing |
| `LogTail` | the end of the system log, read backwards in chunks |
| `Secrets`, `SecretsFile`, `SecretsStore` | placeholders in app templates, the file that keeps their values, and repeated installations |
| `Routes` | the gateway's longest-prefix route table and its reload |
| `CatalogMerge` | several stores' catalogs merged, first store first |
| `LanAddress` | which interface gives the host's address |
| `Semver` | comparison of versions and the update decision |
| `Text`, `Decimal` | the Go string and integer-conversion functions the others use |

How the source is represented:

- The objects the source mutates are classes whose methods have the source's
  loops; each method is proved equal to a function on values, and the lemmas
  are about that function or about all runs of it.
- The order in which Go visits a map is arbitrary: an explicit order that the
  theorems quantify over, or an unconstrained choice in the loop.
- What the code asks of its surroundings is a parameter: whether a port is
  available, what the user-service answers, which step of an update fails and
  what a failed removal leaves, which files cannot be read, how much of a print
  reaches the disk, random bytes, whether a URL parses.
- Concurrency is a state machine. A step is what happens under one lock (or in
  one atomic cache operation, one reading of the clock, one write to a file);
  sending one log line is a step of its own, since receivers take no lock. All
  interleavings count.
- Integers are 64 bits wide where the source's width shows: in parsing and
  printing ports and version components, and in adding to a port.

Where the code and its own comments differ, the code is modelled:

- `compareSemver` ignores pre-releases by design, against section 11 of
  Semantic Versioning 2.0.0 (`Semver.PreReleaseIgnored`).
- The comment in `Subscribe` says that a long history loses some of its initial
  lines; the channel keeps the first 100 and loses later ones
  (`LogStream.Delivery`).
- `GetSystemLogs` speaks of the last N lines; it keeps N newlines, which is one
  line more when the file does not end with a newline (`LogTail.TailLines`).
- `update_ok` is described as a newer version; `Check` only asks that the
  version differs, so no lemma says that it is newer.
- The upload announces that it pre-allocates the file, but neither does so nor
  truncates: the temporary file of an abandoned longer upload keeps its end
  (`ChunkUpload.UploadIsExact` says exactly when that shows).
- The marker file of a store is opened without truncation, so a longer marker
  that came with the download keeps its end, and the error of its flush is
  dropped, so an update can succeed without it (`CatalogUpdate.MarkerWholeIff`).
- `UnregisterAppStore` is described as leaving the catalog on disk; it removes the
  work directory and leaves the store object (`CatalogUpdate.UnregisterIsSoundIff`).
- The secrets file is described as written atomically, but the errors of its
  prints are dropped before the rename: a full disk replaces it by a cut one
  (`SecretsFile.LoadPrintIff`, `SecretsStore.FullDiskLosesSecrets`).

The messages that `LogStream.Delivery` describes hold no newline because each
goes out as one `data:` line of an event stream (section 9.2.6 of the WHATWG
HTML standard).

## Model

| member | source | states |
|---|---|---|
| PortAllocator.ClaimsAreDisjoint | backend/app-management/service/compose_service.go:371-420 | For every app, every availability probe and every order of visiting the groups: two references from different groups that were kept or moved, and that use the same protocol however each spells it, end on different port numbers (also when two strings such as "80" and "080" name one number) |
| PortAllocator.SettledPortsAreAvailable | backend/app-management/service/compose_service.go:384-410 | And each such reference ends on a port available for the protocol it uses |
| PortAllocator.UsesItsProto | backend/app-management/service/compose_service.go:355-358 | The protocol of a reference is tcp when its field is empty and otherwise the field with each ASCII capital made small, and no other |
| Decimal.AtoiIff | backend/app-management/service/compose_service.go:372-375 | A published string counts as a number exactly when it is a non-empty run of digits, with or without a sign, of a number that fits 64 bits |
| PortAllocator.AllocateIsSound | backend/app-management/service/compose_service.go:363-421 | The invariant behind it: after any sequence of visits the claimed keys are exactly those of the settled groups, each claim is available and has one owner, and kept and moved groups are numeric and disjoint |
| PortAllocator.UntouchedIffConflictFree | backend/app-management/service/compose_service.go:371-421 | Nothing is moved and no numeric group is left without a port if and only if every port asked for is available and no two groups ask for the same port and protocol |
| PortAllocator.AllocatingAgainChangesNothing | backend/app-management/service/compose_service.go:340-444 | When no numeric group was left without a port, running the allocator on its own result, in any order of either run, gives an empty remap and the same app; merged tcp and udp groups included (the exact condition is PortStability.RerunIsStableIff) |
| PortAllocator.ResultIsConflictFree | backend/app-management/service/compose_service.go:340-422 | When no numeric group was left without a port, the rewritten app is conflict-free |
| PortAllocator.StuckGroupsMayMoveLater | backend/app-management/service/compose_service.go:399-405 | A group left without a port can move in a second run: for every port m below 65535, an app with groups m and m + 1 where only m + 1 is free is left as it is by one order, and the other order then moves m |
| PortAllocator.FirstFit | backend/app-management/service/compose_service.go:382-405 | Any group with a number, negative ones included, that did not keep its port: every port from its own up to where it went (or, when stuck, every one within 1000 up to 65535) is unavailable or claimed by a group at the end of the run, for one of its protocols; only a stuck search from below zero may have stopped early, at port 0 being available |
| PortAllocator.NoPortIsPassedOver | backend/app-management/service/compose_service.go:382-405 | In terms of ports, for a group numbered 0 or above that did not keep its port: each port from its own up to 65535 within 1000, and below the one it moved to if it did, is unavailable or claimed for one of its protocols |
| PortAllocator.FindPortIsFirst | backend/app-management/service/compose_service.go:426-444 | The search finds the least offset from 1 to 1000 whose port is free for all protocols, stops at 65535, and comes back with nothing exactly when there is no such offset or it is that of port 0 |
| PortAllocator.UseKeyInjective | backend/app-management/service/compose_service.go:366-369 | The key "proto/port" of one claim equals that of another exactly when protocol and port are the same |
| PortAllocator.RemapTargets | backend/app-management/service/compose_service.go:399-407 | A moved group's new port is at most 65535, not 0 and written in canonical decimal; unless the group is numbered the greatest 64-bit integer, where the search wraps around, the port is higher, by at most 1000 |
| PortAllocator.ReferencesMoveTogether | backend/app-management/service/compose_service.go:411-419 | The renaming is simultaneous, never chained: a reference ends on the new port of its old string or where it was; target and protocol stay; references that shared a published string share it still |
| PortStability.SteadyIff | backend/app-management/service/compose_service.go:340-444 | For every app and probe: no order of visiting the groups moves anything if and only if each group with a number has its port available with no other group able to claim it first, or has no other port to go to; a condition on app and host alone |
| PortStability.RerunIsStableIff | backend/app-management/service/compose_service.go:340-444 | On the result of an allocation, groups left stuck or not: no second run in any order moves anything if and only if that condition holds of the result; it does when no group was left stuck |
| PortStability.Unsettle | backend/app-management/service/compose_service.go:371-420 | For a group that fails the condition there is an order in which it is moved |
| PortStability.SteadyKeeps | backend/app-management/service/compose_service.go:371-420 | While the condition holds, every sequence of visits leaves the remap empty |
| PortStability.OwnerIsRival | backend/app-management/service/compose_service.go:384-395 | While nothing has moved, a key in use that a group wants belongs to another group asking for the same port with a protocol in common |
| PortStability.ClaimsOpenTheWay | backend/app-management/service/compose_service.go:426-444 | Claims can turn a failed search into a successful one only by taking port 0, which a search from below zero would have stopped at |
| PortAllocator.StoreFieldFollows | backend/app-management/service/compose_service.go:451-474 | A port field, string or integer, that named the old port of a reference names its new port afterwards |
| PortAllocator.MetadataFollows | backend/app-management/service/compose_service.go:451-474 | In the table of the alias that counts (x-powerlab before x-web before x-casaos), a field port_map, web or port that named a reference's published port names the one it has after the allocation |
| PortAllocator.FollowChangesOnly | backend/app-management/service/compose_service.go:451-474 | Nothing else in the extensions changes: only that table, only those fields, only values that name a moved group |
| PortAllocator.GroupPorts | backend/app-management/service/compose_service.go:349-361 | In any order of the services, the groups hold exactly the references whose published string is non-empty, each under its string |
| PortAllocator.GroupNames | backend/app-management/service/compose_service.go:349-380 | The group names are the published strings, and a group's protocols are those of the references with that string |
| PortAllocator.FindCommonAvailablePort | backend/app-management/service/compose_service.go:426-444 | The loop, probing protocols in any order and stopping at the first that is taken, yields the port that FindPortIsFirst characterises |
| PortAllocator.FreeForAll | backend/app-management/service/compose_service.go:384-390 | The inner loop answers whether the port is unclaimed and available for every protocol, in any order of probing |
| PortAllocator.ComposeApp.Publish | backend/app-management/service/compose_service.go:411-419 | Exactly the listed references get the new published port; nothing else in the services changes |
| PortAllocator.ComposeApp.MoveGroup | backend/app-management/service/compose_service.go:406-419 | Editing one group in place extends the simultaneous renaming of the original app by that group |
| PortAllocator.ComposeApp.SettleGroup | backend/app-management/service/compose_service.go:371-420 | One turn of the loop leaves the services as the original renamed by the remap so far, and takes the allocation one visit further |
| PortAllocator.ComposeApp.AutoRemapPorts | backend/app-management/service/compose_service.go:340-422 | In place, for every order of the groups: the returned remap is the allocation's, and the services are the original ones renamed by it |
| PortAllocator.ComposeApp.UpdateStorePortMap | backend/app-management/service/compose_service.go:451-474 | In place: exactly the port fields of the first present alias, if it is a table, follow the remap |
| PortAllocator.ComposeApp.ResolvePorts | backend/app-management/service/compose_service.go:86-95 | The installation step: services and store metadata are both rewritten by the one remap |
| ChunkUpload.UploadIsExact | backend/core/service/file_upload.go:60-167 | In every orderly interleaving of any number of calls, with retried and failed copies: the counter is the number of marked chunks; the target file is untouched until all chunks have been marked, and from then on, after exactly one rename, holds the source followed by what an old temporary file held beyond its length: exactly the source if and only if there was none, or none longer |
| ChunkUpload.FinishedIff | backend/core/service/file_upload.go:140-163 | In terms of the calls: the finished file is what it was until each chunk has had the second locked region of a call that carries it, and the outcome from then on, with the temporary file gone |
| ChunkUpload.MarkedIff | backend/core/service/file_upload.go:140-146 | A chunk is marked if and only if a call that carries it has had its second locked region |
| ChunkUpload.SendingInTurnFinishes | backend/core/service/file_upload.go:60-167 | A client that sends every chunk once, one after the other in any order, gets its file |
| ChunkUpload.EveryFileCanBeCut | backend/core/service/file_upload.go:122-133 | Every file, the empty one too, and every chunk size make an upload of that file |
| ChunkUpload.FailureEndsCall | backend/core/service/file_upload.go:133-138 | A failed copy ends its call and leaves bookkeeping, files and other calls |
| ChunkUpload.KnownChunksAreOnDisk | backend/core/service/file_upload.go:34-58 | TestChunk says yes exactly for the chunks marked, until completion, and then their bytes are in the temporary file at their offset |
| ChunkUpload.PoliteIsOrderly | backend/core/service/file_upload.go:60-167 | When a chunk is sent, or sent again after a failure, only while it is not marked and no running call carries it, every interleaving is orderly: none completes with another call still running, and none starts a call afterwards |
| ChunkUpload.SendingOnceIsOrderly | backend/core/service/file_upload.go:60-167 | So it is, in particular, when each chunk is sent by at most one call |
| ChunkUpload.CompletesAlone | backend/core/service/file_upload.go:140-164 | Then the call whose mark fills the count is the only one running |
| ChunkUpload.StepKeepsInv | backend/core/service/file_upload.go:60-167 | Each step (open, one write of the copy, a failure, the mark) keeps the invariant of the shared state |
| ChunkUpload.AllOnDisk | backend/core/service/file_upload.go:148-156 | A temporary file in which every chunk is on disk holds exactly the outcome that UploadIsExact speaks of |
| ChunkUpload.Layout | backend/core/service/file_upload.go:122-133 | The offset (chunkNumber-1)*chunkSize is where that chunk starts in the source, whatever the length of the last chunk |
| ChunkUpload.CountTrueAll | backend/core/service/file_upload.go:142-149 | The counter equals the total exactly when every flag is true |
| ChunkUpload.FileUploadService.TestChunk | backend/core/service/file_upload.go:34-58 | Answers from the bookkeeping whether the chunk is known |
| ChunkUpload.FileUploadService.OpenChunk | backend/core/service/file_upload.go:73-120 | The first locked region: the abstract opening of this upload; no other upload and no other file changes |
| ChunkUpload.FileUploadService.CopyPiece | backend/core/service/file_upload.go:122-138 | One write of the copy: the bytes land at the offset in the temporary file, nothing else changes |
| ChunkUpload.FileUploadService.FinishChunk | backend/core/service/file_upload.go:140-166 | The second locked region: the abstract mark, and on the last chunk the rename and the forgetting of the upload; nothing else changes |
| ChunkUpload.FileUploadService.Perform | backend/core/service/file_upload.go:60-167 | Each step of the interleavings is what the object's methods do to the upload |
| TokenCache.AlwaysRightIff | backend/common/external/user_service.go:148-247 | For a user-service whose verdicts vary with time and a clock that never runs back: under every interleaving of callers, evictions and time every answer without a transport error is the one ParseToken without caches gives when it was decided, if and only if a verdict judged at any later time means what the one given then means |
| TokenCache.CachedRefinesUncached | backend/common/external/user_service.go:148-247 | A user-service whose verdict on a token never changes meets that condition |
| TokenCache.ExpiryMayChangeVerdict | backend/common/external/user_service.go:148-247 | So does one that changes its verdict on a token once that has expired, if the token stays expired |
| TokenCache.NotLastingGoesWrong | backend/common/external/user_service.go:176-246 | From any token and two times at which the condition fails, a run with a wrong answer |
| TokenCache.NoExpiredToken | backend/common/external/user_service.go:165-174 | With no assumption on the user-service: a token handed out was valid and before its expiry when it was decided |
| TokenCache.JudgeMeans | backend/common/external/user_service.go:234-251 | A token is handed out exactly when it is valid and its expiry is later than now; otherwise invalid goes before expired |
| TokenCache.StaleAnswer | backend/common/external/user_service.go:165-173 | What its failure looks like: a run in which a token revoked before its expiry is still answered from the cache |
| TokenCache.RepeatIsFromCache | backend/common/external/user_service.go:156-174 | After an undisturbed call that got a verdict, the same token gets the same answer without asking, or "expired" from its expiry on |
| TokenCache.UncachedIsAsked | backend/common/external/user_service.go:176-246 | A token with no entry is asked for, and the answer is what the verdict given means |
| TokenCache.EvictionForgets | backend/common/external/user_service.go:36-37 | Evicted entries are gone and the others stay; time goes on as it is told |
| TokenCache.ParseTokenCaches.FetchToken | backend/common/external/user_service.go:176-246 | Asking and remembering: caches and answer are those of the undisturbed call from its fetch on |
| TokenCache.ParseTokenCaches.ParseToken | backend/common/external/user_service.go:148-247 | Both caches and the answer are those of the undisturbed run of the step machine; a blank token touches nothing |
| StoreReading.BuildCatalog | backend/app-management/service/appstore.go:459-500 | The walk's loop, with files that show, are read or are silently missing in any way: the catalog collects the apps met, a compose file that does not load hiding the folders inside its own |
| StoreReading.BuildHolds | backend/app-management/service/appstore.go:463-495 | A catalog has exactly the apps given by folders visited, and of several of one name the last; a compose file that does not load hides the folders inside its own, unless it is hidden itself |
| StoreReading.TidyHolds | backend/app-management/service/appstore.go:472-492 | Read with nothing in the way, a store whose compose files load, under distinct names, has exactly the apps of its non-empty compose texts, docker-compose.yml taken before docker-compose.yaml |
| StoreReading.SeenText | backend/app-management/service/appstore.go:472-484 | What a visit to a folder gets, file by file and fault by fault |
| StoreReading.BuildIsWholeIff | backend/app-management/service/appstore.go:481-492 | A catalog built while files went unread equals the one read in full if and only if every app that no later one of its name replaces in one walk is such an app in the other |
| StoreReading.TidyIsWholeIff | backend/app-management/service/appstore.go:472-492 | In a store where each folder has at most one compose file, which loads, and names are distinct: if and only if every compose file was read |
| StoreReading.LostIsMissing | backend/app-management/service/appstore.go:481-484 | In such a store the app of a file left unread is missing |
| CatalogUpdate.OldTreeOrNewTree | backend/app-management/service/appstore.go:124-227 | For every pattern of failing steps of an update of an existing store, if the two restore steps work: the work directory is exactly the old tree on failure, and memory as before but for a dropped catalog; on success it is exactly the unpacked tree, marked as far as the flush went, and memory what its reading gave |
| CatalogUpdate.UpdatedIff | backend/app-management/service/appstore.go:124-227 | An update goes through if and only if the size is known and new, every step before the end reports success and the new tree is a store; lost files, a lost flush and steps that only tidy up do not matter |
| CatalogUpdate.UpdatedLoads | backend/app-management/service/appstore.go:195-226 | Whatever state it found, a successful update leaves the unpacked tree, its size and its reading |
| CatalogUpdate.NewTreeIsArchiveIff | backend/app-management/service/appstore.go:153-163 | The new tree holds exactly the archive if and only if no tree was left in the temporary directory, which nothing clears first, or unpacking over that one does not show |
| CatalogUpdate.LeftoverIsMixedIn | backend/app-management/service/appstore.go:155-163 | The input: a failed update whose clearing up fails leaves a tree that the next one mixes into its own; that is installed, its size recorded, and later refreshes skip it |
| CatalogUpdate.MarkerWholeIff | backend/app-management/service/appstore.go:210-213 | After a successful update the marker is whole if and only if the flush, whose error is dropped (backend/common/utils/file/file.go:145-160), lost nothing that the file did not already hold |
| CatalogUpdate.LostMarkerStays | backend/app-management/service/appstore.go:136-139 | A flush that loses the whole text leaves an empty marker, the update succeeds, and the next refresh skips the store as unchanged |
| CatalogUpdate.OneFailureKeepsOldTree | backend/app-management/service/appstore.go:165-193 | Even when restoring fails too, one failed update has the old tree in place or in the backup |
| CatalogUpdate.BackupSurvivesIff | backend/app-management/service/appstore.go:166-193 | With the old tree only in the backup and something else in its place, the next failing update keeps it if and only if it does not get as far as the backup, or a failing removal leaves just that tree |
| CatalogUpdate.TwoFailuresLoseOldTree | backend/app-management/service/appstore.go:169-193 | The input: a failed restore, then an update that stops after removing the backup; the old tree is nowhere |
| CatalogUpdate.FirstDownload | backend/app-management/service/appstore.go:161-227 | With no directory before: a tree is in place afterwards exactly when the download was moved in, and it is left there by a failed update exactly when no store root is found, the marker fails or the walk fails |
| CatalogUpdate.FailedWalkDropsCatalog | backend/app-management/service/appstore.go:215-218 | When everything works but the walk for the apps, the catalog in memory is dropped and the lists stay |
| CatalogUpdate.UpdatedIsConsistent | backend/app-management/service/appstore.go:195-226 | A successful update makes memory and recorded size consistent with the disk, whatever they were |
| CatalogUpdate.UpdateKeepsConsistent | backend/app-management/service/appstore.go:124-227 | One update, failing anywhere, keeps them consistent |
| CatalogUpdate.MemoryFollowsDisk | backend/app-management/service/appstore.go:124-270 | Over any sequence of refreshes and reads, each losing any files: a non-empty catalog, the categories and the recommendations in memory are the reading of the tree on disk, short of what went unread when each was last filled, and a non-zero recorded size is that of the archive the tree came from |
| CatalogUpdate.CachedReadsAreFreshIff | backend/app-management/service/appstore.go:229-270 | A read through the cache gives what a full read of the disk gives if and only if the cache is empty or the load that last filled it lost nothing that shows: the same apps stay, the category list was read or is empty; recommendations always do |
| CatalogUpdate.DiskYields | backend/app-management/service/appstore.go:229-270 | Read with nothing in the way, the disk yields what its tree holds, if a store root is found there, and nothing otherwise |
| CatalogUpdate.ReadsAreKept | backend/app-management/service/appstore.go:229-270 | What a read returns is kept, but for an empty catalog: the next one gives the same without the disk; recommendations in memory are returned as they are |
| CatalogUpdate.RunGoesOn | backend/app-management/service/appstore.go:67-270 | What one more refresh, read or removal does at the end of a run |
| CatalogUpdate.UnreadAppStaysMissing | backend/app-management/service/appstore.go:481-484 | The input: an app whose compose file cannot be read during a refresh stays missing; the partial catalog is served from memory and refreshes of that size are skipped |
| CatalogUpdate.UnreadListStaysEmpty | backend/app-management/service/appstore.go:386-395 | Likewise an unread category list: an empty one is cached and kept |
| CatalogUpdate.ShortcutIsSound | backend/app-management/service/appstore.go:136-139 | An update skipped for an unchanged non-zero size finds the tree of an archive of that size in place, unpacked alone or over a leftover: the shortcut hides no failed update |
| CatalogUpdate.ExactWithoutLeftovers | backend/app-management/service/appstore.go:153-163 | Without a leftover at the start, and with every update clearing its temporary directory, a recorded size is that of exactly the archive in place |
| CatalogUpdate.UnregisterIsSoundIff | backend/app-management/service/appstore_management.go:266-283 | Removing the work directory while the store object is kept leaves them consistent if and only if the object held nothing yet |
| CatalogUpdate.RegisteredAgainIsSkipped | backend/app-management/service/appstore_management.go:266-283 | Registering the store again while its archive has the recorded size is skipped as unchanged, with no tree in place |
| CatalogUpdate.ZeroSizeNeverDownloads | backend/app-management/service/appstore.go:136-139 | As long as the size is reported as 0, or not at all, no sequence of refreshes and reads ever installs a tree |
| CatalogUpdate.AppStore.UpdateCatalog | backend/app-management/service/appstore.go:124-227 | The body with its stacked deferred actions ends in the state and outcome of the transaction |
| CatalogUpdate.AppStore.Perform | backend/app-management/service/appstore.go:67-270 | Each event of a run is what the object's methods do |
| CatalogUpdate.AppStore.InstallTree | backend/app-management/service/appstore.go:199-226 | The steps on the tree moved in: root, marker, catalog, lists |
| CatalogUpdate.AppStore.ReadCatalog | backend/app-management/service/appstore.go:247-270 | Fills the cache from disk when it is empty, short of the files that go unread; changes nothing else |
| CatalogUpdate.AppStore.ReadCategoryMap | backend/app-management/service/appstore.go:67-87 | Likewise for the category list, of which an empty one is cached too |
| CatalogUpdate.AppStore.ReadRecommend | backend/app-management/service/appstore.go:229-245 | The recommendations in memory, or, when there are none, those on disk, which are not cached |
| CatalogUpdate.AppStore.RemoveWorkDir | backend/app-management/service/appstore_management.go:266-283 | The work directory goes, as far as its removal works; the object keeps what it holds |
| LogStream.Delivery | backend/app-management/service/task.go:79-181 | In every interleaving of Write, Subscribe, cleanup, Finish (any of them repeated) and receiving, receivers acting also between the lines of one write: each message is one non-empty line, no channel exceeds its capacity, what was sent stands in what was offered in the same order and starts with the first lines, at most 100, of the history at attach time, and in a finished task every channel ever handed out is closed |
| LogStream.FinishClosesAll | backend/app-management/service/task.go:159-167 | Once Finish has run the task is finished and every channel is closed for good, those handed out later included; the channels attached at the first Finish are closed by it, with the log as it was then |
| LogStream.FinishedByFinish | backend/app-management/service/task.go:159-167 | A task is finished only by a Finish |
| LogStream.CleanupCloses | backend/app-management/service/task.go:141-151 | After its cleanup has run a channel is closed for good, by that cleanup if it was still attached |
| LogStream.SubscribeAttaches | backend/app-management/service/task.go:103-154 | Each Subscribe hands out a channel that is there for good, with the history of that moment to replay, attached unless the task is finished |
| LogStream.LogIsWritten | backend/app-management/service/task.go:83 | The log is what was written, in that order |
| LogStream.WritesGetDone | backend/app-management/service/task.go:88-90 | However many lines a write has, sending them one after the other ends it |
| LogStream.ReceiveTakesNext | backend/app-management/service/task.go:107 | A receiver that finds a message takes exactly one |
| LogStream.StepKeepsInv | backend/app-management/service/task.go:79-181 | Every step, the broadcast of one line being one, keeps the invariant, under which no channel that is sent to or closed is closed already |
| LogStream.LinesKeepText | backend/app-management/service/task.go:187-200 | The lines of a text, put together, are the text without its newlines |
| LogStream.LinesAppend | backend/app-management/service/task.go:187-200 | The lines of two texts together are those of each in turn when a line ends between them or one is empty; otherwise there is exactly one line less |
| LogStream.NothingDroppedIff | backend/app-management/service/task.go:173-181 | A channel was sent every line the task tried to send it if and only if the history fitted into it and it was not full at any moment a line was sent to it |
| LogStream.SameLinesForAll | backend/app-management/service/task.go:103-167 | Two subscribers that stayed until Finish, had room each time and saw only such writes got the same lines, those of the log at Finish, however early or late they attached |
| LogStream.OffersAreLinesIff | backend/app-management/service/task.go:79-167 | What a channel was offered, with the lines of a write under way, is the lines of the log (of a closed one: the log as it was then) if and only if every write while it was attached began where a line ends |
| LogStream.GotAllLinesIff | backend/app-management/service/task.go:79-181 | Between writes, and for good once closed, a channel was sent exactly the lines of the log if and only if it had room each time and every write began where a line ends |
| LogStream.WholeLinesMeet | backend/app-management/service/task.go:79-93 | A writer whose writes all end in a newline meets that condition for every channel |
| LogStream.SplitWritesDiffer | backend/app-management/service/task.go:79-124 | What the condition on writes is for: a line written in two parts is two messages to an early subscriber and one to a late one |
| LogStream.SplitLinesLoop | backend/app-management/service/task.go:187-200 | The loop yields the non-empty parts between newlines, in order |
| LogStream.LiveTask.BroadcastLocked | backend/app-management/service/task.go:173-181 | Every subscriber's channel is offered the line, a full one drops it; other channels do not change |
| LogStream.LiveTask.Write | backend/app-management/service/task.go:79-93 | With receivers acting in any way between the lines, the write is the run of its steps: all bytes are counted and kept, every line goes to every subscriber, and the invariant holds |
| LogStream.LiveTask.Subscribe | backend/app-management/service/task.go:103-154 | The new channel holds the first lines of the history and is attached, or closed when the task has finished |
| LogStream.LiveTask.Cleanup | backend/app-management/service/task.go:141-151 | Detaches and closes the one channel; nothing when it is no longer attached |
| LogStream.LiveTask.Finish | backend/app-management/service/task.go:159-167 | Closes every attached channel and detaches all |
| LogStream.LiveTask.CloseSubscribers | backend/app-management/service/task.go:163-165 | The loop closes exactly the attached channels |
| LogStream.LiveTask.Perform | backend/app-management/service/task.go:103-167 | Each step between writes is what the object's methods do |
| LogTail.GetSystemLogs | backend/core/service/system.go:454-523 | For every file content, every number of lines and every chunk size from 1 up, the backward reader yields the specified tail (100 lines when the number is not positive) |
| LogTail.TailIsExact | backend/core/service/system.go:508-521 | The tail is the whole file if it has at most n newlines, and otherwise what follows some newline and holds exactly n |
| LogTail.AfterNewline | backend/core/service/system.go:508-521 | There is only one such suffix |
| LogTail.TailOfSuffix | backend/core/service/system.go:486-507 | What lies before a suffix with more than n newlines does not matter, so reading may stop there |
| LogTail.TailLines | backend/core/service/system.go:508-522 | A tail that was cut has n lines exactly when the file ends with a newline, and n + 1 otherwise |
| LogTail.CountNewlines | backend/core/service/system.go:497-502 | The counting loop |
| LogTail.NewlinesAreCounted | backend/core/service/system.go:497-502 | The number counted is the number of positions that hold a newline |
| LogTail.DropLines | backend/core/service/system.go:510-520 | Dropping `extra` newlines leaves the tail with the remaining number |
| Secrets.MatchIsPrefix | backend/app-management/service/install_secrets.go:44 | The scanner matches at a position exactly when a placeholder of an accepted name stands there |
| Secrets.SecretNameIff | backend/app-management/service/install_secrets.go:44 | The names of the pattern: APP_SEED, APP_PASSWORD, and APP_ with at least one capital, digit or underscore and one of the three database suffixes |
| Secrets.ScanSpells | backend/app-management/service/install_secrets.go:84-99 | The pieces of a template spell it, so filling the holes leaves all other text unchanged; only accepted names become holes |
| Secrets.FillInParts | backend/app-management/service/install_secrets.go:84-99 | A template is filled piece by piece: a character stays, a hole gets its name's value |
| Secrets.HolesIffPlaceholder | backend/app-management/service/install_secrets.go:48-50 | The pieces have a hole exactly when a placeholder occurs anywhere in the text |
| Secrets.FillDependsOnNames | backend/app-management/service/install_secrets.go:84-98 | Each name has one value throughout: two fillings that agree on the names used are equal |
| Secrets.NothingLeft | backend/app-management/service/install_secrets.go:84-99 | When every value has no brace or dollar and some character no name can have, the output contains no placeholder, also where filling one joins the halves of another |
| Secrets.GeneratedShape | backend/app-management/service/install_secrets.go:108-146 | Generated values are lowercase letters and digits: 12 characters for user and database names, 64 for the seed, 32 otherwise |
| Secrets.WordsAreNames | backend/app-management/service/install_secrets.go:108-126 | User and database names get 12 letters, the seed 32 bytes and passwords 16 in hexadecimal |
| Secrets.HexIsInjective | backend/app-management/service/install_secrets.go:128-134 | Other random bytes give another hexadecimal value |
| Secrets.AlphaTellsApart | backend/app-management/service/install_secrets.go:136-146 | Two words are equal exactly when their bytes agree modulo 26, place by place |
| Secrets.GeneratedInert | backend/app-management/service/install_secrets.go:108-146 | A generated value is safe in that sense if and only if it has a letter |
| Secrets.DigitsCanNest | backend/app-management/service/install_secrets.go:84-99 | For every generated value without a letter it fails: filled into a nested placeholder it completes another one |
| SecretsFile.LoadPrintIff | backend/app-management/service/install_secrets.go:151-200 | For every order of printing and every loss in the prints, whose errors are dropped: the file loads to the values printed if and only if nothing of the entries was cut but the last newline, and no rest of a comment runs into the first entry |
| SecretsFile.TruncatedLoadsIff | backend/app-management/service/install_secrets.go:191-195 | When the disk is full from some point of the printing on, an entry loads again if and only if its whole line, newline apart, was printed |
| SecretsFile.ReprintedFileLoadsTheSame | backend/app-management/service/install_secrets.go:151-200 | For any file text and any printing order, loading what is printed for the loaded values gives the loaded values, under that same condition and no other |
| SecretsFile.LoadIsClean | backend/app-management/service/install_secrets.go:151-172 | Whatever a file holds, what is loaded from it survives being written and read as lines |
| SecretsFile.SplitPrinted | backend/app-management/service/install_secrets.go:191-195 | The lines of a file printed with losses: a print cut before its newline runs into the next |
| SecretsFile.LoadTakesLength | backend/app-management/service/install_secrets.go:160-170 | Entries that load from some lines take up at least their own length there |
| SecretsFile.Shortfall | backend/app-management/service/install_secrets.go:191-195 | Cutting more than the last newline of the entries leaves too little for all of them |
| SecretsFile.LoadSecretsFile | backend/app-management/service/install_secrets.go:151-172 | The loop: later lines win; blank lines, comments and lines without "=" are skipped |
| SecretsFile.ParseLineIff | backend/app-management/service/install_secrets.go:160-170 | A line yields an entry exactly when it spells it, with white space around: no equals sign in the key, no # in front; so blank lines, comments and lines without an equals sign yield nothing |
| Text.TrimTakesSpace | backend/app-management/service/install_secrets.go:161 | Trimming takes the white space at both ends and nothing else |
| SecretsFile.WriteSecretsFile | backend/app-management/service/install_secrets.go:177-200 | The text is what reached the disk of the header and one line per entry, each once, in some order |
| SecretsStore.SubstitutionStores | backend/app-management/service/install_secrets.go:47-100 | A failed call leaves the file; a successful one fills the template with all that was stored and a value for each name, and the new file loads to just those values if and only if nothing that matters was cut |
| SecretsStore.SucceedsIff | backend/app-management/service/install_secrets.go:47-100 | A call succeeds exactly when there is no placeholder, or a value can be drawn for each name that has none and the file can be replaced; a name that had no value gets the one generated from its random bytes |
| SecretsStore.ReinstallKeepsIff | backend/app-management/service/install_secrets.go:59-82 | Installing again with all names stored, the stored secrets are what they were if and only if nothing that matters was cut |
| SecretsStore.StoredSurviveIff | backend/app-management/service/install_secrets.go:59-82 | On such a disk the stored secrets survive a call, also one that adds names, if and only if the line of each of them was printed; what is cut of the new ones is no matter |
| SecretsStore.SecretsNeverChange | backend/app-management/service/install_secrets.go:59-82 | Over any run of calls, with any templates, randomness and reported failures, a stored secret is never changed or lost as long as no file was replaced by one cut where it matters |
| SecretsStore.SameTemplateSameBytes | backend/app-management/service/install_secrets.go:47-100 | Any two successful calls on the same template in such a run give identical bytes |
| SecretsStore.FullDiskLosesSecrets | backend/app-management/service/install_secrets.go:191-199 | Where it fails: on a disk that takes nothing of the new file, a successful call loses the stored seed, and the next one puts a new value into the same template |
| SecretsStore.NoPlaceholderLeft | backend/app-management/service/install_secrets.go:47-100 | The output of a successful call is the template, spelled by its pieces, with the holes filled; it holds no placeholder when the values used are as in Secrets.NothingLeft |
| SecretsStore.EnsureSecrets | backend/app-management/service/install_secrets.go:66-76 | In any order of drawing: the stored values and a fresh one for each missing name, or failure if any cannot be drawn |
| SecretsStore.SecretsDir.SubstituteSecrets | backend/app-management/service/install_secrets.go:47-100 | One call: no placeholder leaves file and template alone; a reported failure leaves the file and gives no output; success fills the template and replaces the file by what was kept of the prints |
| Routes.LookupIsLongestPrefix | backend/gateway/service/management.go:102-113 | For every order a length-descending sort may leave, the result is the target of the longest registered prefix of the path, and none exactly when no prefix matches |
| Routes.LookupIgnoresOrder | backend/gateway/service/management.go:102-113 | Two lookups agree whatever order each sorts ties into |
| Routes.KeysCanBeSorted | backend/gateway/service/management.go:159-169 | An arrangement of the prefixes by falling length always exists |
| Routes.ProxiesFollowTargets | backend/gateway/service/management.go:42-87 | After any history of route creations, failed saves and restarts, the proxies are those of the registered targets whose URL parses |
| Routes.RestartRoutesTheSame | backend/gateway/service/management.go:42-87 | After any such history, once a route was created successfully, a gateway restarted from the saved table is the running one and routes every path the same |
| Routes.CreateRegisters | backend/gateway/service/management.go:70-87 | When the target parses, the prefix has it from then on, also when saving fails, and every other prefix has what it had; otherwise nothing changes; success means parsed and saved, with the new table in the file |
| Routes.CreatedRouteServes | backend/gateway/service/management.go:70-113 | A request whose longest registered prefix was just created goes to its target |
| Routes.LastRegisteredCounts | backend/gateway/service/management.go:70-87 | Without a restart, a prefix has the target of the last creation that gave it one that parses |
| Routes.UnregisteredIsOfFile | backend/gateway/service/management.go:42-87 | And before any did, that of the file read at boot, if it is there |
| Routes.BootReads | backend/gateway/service/management.go:42-68 | At boot exactly the targets of the file that parse get a proxy |
| Routes.RunGoesOn | backend/gateway/service/management.go:42-87 | A restart reads the file that the last save left; a creation goes on from what there is |
| Routes.Management.constructor | backend/gateway/service/management.go:42-68 | Loading in any map order builds the table of the file, empty if unreadable |
| Routes.Management.CreateRoute | backend/gateway/service/management.go:70-87 | A target that does not parse changes nothing; otherwise both maps and the file are updated, and a failed save is reported with the maps changed |
| Routes.Management.GetProxy | backend/gateway/service/management.go:102-113 | The loop yields the proxy of the first listed prefix that matches |
| CatalogMerge.Catalog | backend/app-management/service/appstore_management.go:419-473 | If any store loads, whatever the map order inside each: exactly one entry per case-folded id offered, from the earliest store that offers it; otherwise the default store's catalog, none or its failure |
| CatalogMerge.MergeStore | backend/app-management/service/appstore_management.go:440-453 | One store's entries, in any order, extend the merge by that store |
| CatalogMerge.MergeIsUnique | backend/app-management/service/appstore_management.go:433-454 | If no single store has ids differing only in case, there is only one such merge |
| CatalogMerge.MergeTakesFirst | backend/app-management/service/appstore_management.go:433-454 | An app of a store that loads is in the catalog, unless an earlier store that loads has its id in some case |
| CatalogMerge.MergeAddsNothing | backend/app-management/service/appstore_management.go:433-454 | Every app of the catalog is one of a configured store that loads |
| CatalogMerge.LaterStoreAddsOnly | backend/app-management/service/appstore_management.go:433-454 | Configuring one more store last changes no entry there was |
| CatalogMerge.CountCategories | backend/app-management/service/appstore_management.go:344-368 | In any order, each category's count is the number of catalog apps whose metadata loads and names it |
| LanAddress.FirstLanIPv4 | backend/app-management/service/install_host_substitution.go:129-173 | For distinct interface names, the first IPv4 address of the least-named interface that is up, not the loopback and has one; "" when there is none or listing fails |
| LanAddress.OfferIff | backend/app-management/service/install_host_substitution.go:148-170 | What an interface offers: the first IPv4 address, if it is up and not the loopback and its addresses can be listed |
| Text.LessIff | backend/app-management/service/install_host_substitution.go:143 | Names are compared at the first place where they differ, or one ends |
| LanAddress.AnswerIgnoresOrder | backend/app-management/service/install_host_substitution.go:124-128 | The answer is the same for every order of enumeration |
| LanAddress.SortNames | backend/app-management/service/install_host_substitution.go:140-147 | The exchange sort, in place, leaves the names sorted and the same multiset |
| LanAddress.Select | backend/app-management/service/install_host_substitution.go:148-172 | Scanning the sorted names finds the least eligible interface |
| Semver.CompareIsPreorder | backend/core/service/powerlab_updater.go:620-648 | A total preorder on all strings: antisymmetric in sign, transitive, with the empty string below all others |
| Semver.TriplesAreLexicographic | backend/core/service/powerlab_updater.go:633-647 | The first component that differs decides |
| Semver.AgreesWithNumbers | backend/core/service/powerlab_updater.go:631-647 | On tagged releases it is the order of MAJOR.MINOR.PATCH as numbers, each cut off at the greatest 64-bit integer |
| Semver.DottedNumbers | backend/core/service/powerlab_updater.go:667-686 | Three runs of digits with dots between are a tagged release with those numbers |
| Semver.PreReleaseIgnored | backend/core/service/powerlab_updater.go:614-632 | A pre-release compares as the release it precedes, unlike section 11 of Semantic Versioning 2.0.0 |
| Semver.CompareSemver | backend/core/service/powerlab_updater.go:620-648 | The loop with its early returns computes that comparison |
| Semver.TooOldMeansBelowFloor | backend/core/service/powerlab_updater.go:170-203 | A tagged release is refused as too old exactly when its numbers are below those of the floor, and never when there is no floor |
| Semver.ReleaseDecision | backend/core/service/powerlab_updater.go:170-203 | All the decisions on a tagged release, by its numbers and the floor's: skipped, up to date, offered, no build for the architecture |
| Semver.MarkerIff | backend/core/service/powerlab_updater.go:696-704 | The suffixes that mark a development build: one of five words in any case, alone or before a dot or hyphen |
| Semver.DevelopmentBuildNeverTooOld | backend/core/service/powerlab_updater.go:650-704 | A version whose suffix begins with a development marker, in any case, alone or before a dot or hyphen, is never too old however low its numbers, and is offered any other version of its architecture with a warning |

## Left out

- PortAllocator.FirstFit: says nothing about ports past 0 for a stuck group numbered below zero when port 0 is available to it: the search stops there, and the caller reads port 0 as "none".
- PortAllocator.StoreFieldFollows: an integer field is one that fits 64 bits, as every Go int on the server does.
- PortAllocator.MetadataFollows: likewise.
- PortAllocator: the availability probe is one function for the whole call; a port taken by another process in between is not modelled.
- ChunkUpload.UploadIsExact: the runs are orderly (no call starts after the upload is complete or is still running when it completes), since the code lets a late duplicate start a new upload; PoliteIsOrderly shows that sending a chunk only while it is neither marked nor under way, retries included, needs no such assumption.
- ChunkUpload: the interleavings are of one upload; that others are untouched is in the contracts of the service's methods. A failing copy is a step; failures of MkdirAll, OpenFile and opening the part return before anything relevant changed.
- ChunkUpload.FileUploadService.FinishChunk: the error branches of closing and renaming, which unlock the mutex twice, are not modelled.
- ChunkUpload.FileUploadService.TestChunk: a chunk number outside the upload, which indexes out of range in the source, is a precondition.
- TokenCache: the caches' capacity and lifetime are replaced by eviction of any entries at any time, which includes them; JSON, HTTP and the socket fallback are one response that is a verdict or a transport error.
- CatalogUpdate: the local-directory branch, which keeps nothing on disk; what a tree's folders and lists are, and how a compose text is parsed, are functions of the tree and the text. What unpacking over an old tree gives is an arbitrary function of both.
- CatalogUpdate.MemoryFollowsDisk: the runs restore successfully and do not unregister the store; OneFailureKeepsOldTree, TwoFailuresLoseOldTree and UnregisterIsSoundIff say what happens otherwise, and UpdatedIsConsistent that the next successful update mends it.
- CatalogUpdate.ShortcutIsSound: needs a non-zero size; ZeroSizeNeverDownloads shows why.
- CatalogUpdate.FirstDownload: a failed first download may leave the downloaded tree in place, as in the source, where nothing is undone without a backup.
- LogStream: the map from application to task; '\r' is an ordinary character, as in the source.
- LogTail.GetSystemLogs: the errors of opening and reading the file, which are returned as text.
- SecretsStore.SecretsNeverChange: its condition on each call is exact when the call adds no name (ReinstallKeepsIff) and, when the disk is full from some point on, StoredSurviveIff is exact for any call; other losses could by coincidence join the rests of two entries into a third.
- SecretsStore: the directory's and file's permissions; closing the temporary file and renaming it are one step that works or leaves the old file. A print that is cut may keep any part of its start. Randomness is a function from names to bytes that may fail.
- Secrets: the pattern is a scanner that accepts the same texts; MatchIsPrefix ties it to the accepted names.
- Routes: JSON is the identity; a failed save may leave any file.
- Text: ToLower folds ASCII letters only; Go also folds other letters by its own tables. Strings are sequences of characters, not of bytes.
- CatalogMerge: merging of category lists and of recommendations, which follow the same loop, and the lookup of one app, which walks a map of stores and need not agree with the merged catalog.
- LanAddress.FirstLanIPv4: nothing is stated about duplicate interface names, which the kernel does not give.
- Semver: fetching the manifest, and the texts of the result beside its decision and warning.
- Stripping a port from a host name, resolving the host hint, label maps and port-range checks are one-branch helpers.
- HTTP handlers, Docker, the database, certificates and generated code.
