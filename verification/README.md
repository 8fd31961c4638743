# Lead360: a verified model of its stateful core

This project models, in Dafny, the parts of the Lead360 API and front end that keep state across
requests, and proves what they guarantee over whole runs:

- **Files** (`files.service.ts`): uploads under a storage quota, the three sweeps that mark, trash and
  remove unattached files thirty days apart, deletion, bulk deletion, deletion by an administrator, storage
  figures and pages. Every `await` on the database or the disk is a step boundary, so the segments of
  overlapping requests interleave in any order (`FileRuns`, `Quota`); the same operations run to their end
  are the methods of the class `FilesService.Files`.
- **Share links**: a download reads and validates the row, then writes the count it read plus one. `k`
  requests interleave, and any of them may die in between (`ShareLinkRuns`); `ShareLinks` holds the table.
- **The shared browser** (`puppeteer-process-manager.service.ts`): any number of callers of `getBrowser`,
  the restart they share, and browsers that disconnect at any moment.
- **The token blocklist** over a store with expiring keys, with separate clock readings at signing, tracking
  and blocking and a round trip between any two Redis commands.
- **Accounts and sessions** (`auth.service.ts`): activation and reset tokens and refresh-token rows, with the
  history the claims are about.
- **The RBAC seed** (`rbac.seed.ts`): its phases over arbitrary definition lists and any starting database.
- **The audit diff** (`BeforeAfterDiff.tsx`) over JSON values and a written-out `JSON.stringify`.
- **Stored files by id** (`file-storage.service.ts`) and the **input sanitizers** (`formatted-inputs.ts`).

State machines are functions `Next(state, step)`; a run is a fold of `Next` over any list of steps, and a
step that is not enabled leaves the state alone. Classes carry the fields the services update, and their
methods state the whole new state. The classes of the file service, the browser manager, the token blocklist,
the authentication service and the file storage also carry the state or the log of the machine as a ghost
field, and every method that changes something proves that it is a run of that machine's steps, so the
theorems about runs hold of the objects.

## What the code does not promise

Where a natural claim is false of the code, the model keeps the code and proves exactly when the claim holds:

- A download limit holds on every schedule exactly when downloads of the link never overlap or none is left
  (`LimitHonouredExactlyWhenSerial`). With m downloads left and k overlapping requests the exact worst case is
  (m + k choose k) - 1 grants, whichever requests die half-way and whether or not the link has a password
  (`GrantsBelowChoose`, `WorstCaseAttained`); k + k^2 + ... + k^m is a coarser bound (`GrantsBelowGeometric`).
- A storage quota can be passed. From every settled state with k > 0 overlapping uploads, usage can reach the
  limit in whole bytes plus k - 1 files of the largest size the limit lets through plus what image processing
  adds to k files, and never more (`UsageNeverPassesOvershoot`, `OvershootAttained`). The plan is kept on every
  schedule exactly when no upload runs at all, or images never grow and either uploads never overlap or the
  limit is below one byte (`QuotaHeldExactlyWhen`).
- Six tables forbid deleting a file they refer to (`api/prisma/schema.prisma:2674`), and neither the cleanup
  sweep nor an administrator's deletion asks them. A sweep that meets one such file unlinks the blobs of its
  whole batch, is refused by the database, and meets the same batch again next time (`RefusedBatchStays`,
  `AdminDeletionStrandsOthers`). From a service at rest, told before the sweep: it strands rows that no
  administrator trashed exactly when a file due is held by such a table and one of the files due is such a row
  (`CleanupStrandsExactlyWhen`). Of all steps only a refused DELETE strands rows in this sense
  (`StrandsExactlyWhen`, `NeverStrandedExactlyWhen`); a deletion that crashes may also leave a row without blobs,
  and is recorded apart. Delete and bulk delete do ask, but a reference that arrives between the check and the
  DELETE strands all their files (`LateReferenceStrands`). Without crashes and failed unlinks the settled disk is
  the table exactly when no row is stranded (`SettledDiskIsTheTableExactlyWhen`).
- `trashed_at` of a row can be written twice when two operations that date it overlap, such as two deletions by
  an administrator (`TrashedAtWrittenOnceExactlyWhenSerial`).
- An upload without an entity is flagged as an orphan but given no orphan date
  (`api/src/modules/files/files.service.ts:362`), so no sweep ever takes it; linking a file that is already
  dated does not protect it, nor does a link that arrives after `findOrphans` read the links
  (`UnattachedUploadIsNeverSwept`, `LinkProtectsExactlyWhenRead`, `SweepableExactlyWhen`).
- `blockUserTokens` blocks only the token on record; a user's earlier access tokens stay valid
  (`BlocksExactlyTheOneOnRecord`). Nor is the token on record always the latest: the DEL that ends one
  blockUserTokens can remove the record of a login that came in between, and a second call then finds nothing
  (`DelayedDeleteSparesTheLatest`). The latest token is rejected afterwards exactly when it was already, or no
  DEL for its user ran since it was stored (`LatestIsRejectedExactlyWhen`); no blockUserTokens of the user being
  past its GET at that moment is enough (`UndisturbedTokenCanBeBlocked`).
- Two refresh tokens signed alike in one second are the same string, so a logout is final exactly when that
  second is over (`LogoutIsFinalExactlyWhen`).
- The seed calls itself idempotent and is, but it stops at a unique index exactly when a template's list names
  twice a permission that is there already, or is defined under a module that is there or is defined
  (`SeedFailsExactlyWhen`).
- The diff reads keys through the prototype, so it is a patch exactly when no key that one side lacks is a
  name every object inherits (`DiffIsAPatchExactlyWhen`); and it compares texts, so reordered members of a
  nested object show as modified (`ReorderedMembersShowAsModified`).
- Pages are separate queries ordered by creation time alone: every row is on exactly one page, however ties
  are ordered, exactly when no tie crosses a page boundary (`PagesPartitionExactlyWhen`).

## Model

| member | source | states |
|---|---|---|
| `ShareLinks.AcceptedExactlyWhen` | api/src/modules/files/files.service.ts:1099-1146 | a download is accepted exactly when the link is active, not expired, under its limit (0 and null are no limit) and the password fits |
| `ShareLinks.ShareLinkTable.CreateShareLink` | api/src/modules/files/files.service.ts:1003-1087 | refused iff the file is not visible; else one row under that token for that tenant, file and id, with both counts 0, the hash of the password given, the expiry given and no limit for 0, and the link the tenant's revocation of that id finds; no other row changes |
| `ShareLinks.NewLinkOpens` | api/src/modules/files/files.service.ts:1029-1062 | what creation stores and what validation checks fit together: a new link, while under its limit, refuses a download exactly after its expiry or without the password it was given |
| `ShareLinks.ShareLinkTable.ValidateShareLink` | api/src/modules/files/files.service.ts:1099-1146 | the row, or the first check that fails: no such link, revoked, expired, used up, no password given, wrong password |
| `ShareLinks.ShareLinkTable.DownloadShareLink` | api/src/modules/files/files.service.ts:1211-1256 | alone, a granted download answers with the file the link was made for and raises that row's count by exactly one; no other row changes, and a refusal changes nothing |
| `ShareLinks.ShareLinkTable.ViewShareLink` | api/src/modules/files/files.service.ts:1156-1201 | granted exactly when the link is active, not expired and the password fits, whatever has been downloaded; answers with its file and changes only the view count and access time |
| `ShareLinks.ShareLinkTable.RevokeShareLink` | api/src/modules/files/files.service.ts:1349-1385 | clears is_active of the tenant's link with that id, and nothing else |
| `ShareLinkRuns.StoredCountNeverExceedsLimit` | api/src/modules/files/files.service.ts:1123-1130 | on every interleaving the stored count stays within the limit |
| `ShareLinkRuns.RequestsAlone` | api/src/modules/files/files.service.ts:1156-1256 | a request with nothing in between does what the table's operation does: a view is granted whatever has been downloaded, a download also needs the limit not to be used up, and one that dies midway leaves no trace |
| `ShareLinkRuns.NewLinkServesItsFile` | api/src/modules/files/files.service.ts:1033-1044 | on every interleaving a link goes on serving the file and tenant it was made for, under its token, password, limit and expiry |
| `ShareLinkRuns.GrantsBelowChoose` | api/src/modules/files/files.service.ts:1211-1256 | on every schedule, requests that die included, k overlapping requests obtain fewer than (m + k choose k) downloads of a link with m downloads left |
| `ShareLinkRuns.FailuresLeaveNoTrace` | api/src/modules/files/files.service.ts:1211-1256 | every run ends with the row and the grants of a run in which no request dies |
| `ShareLinkRuns.WorstCaseAttained` | api/src/modules/files/files.service.ts:1211-1256 | for every link, limit and k, and whatever the password, some schedule obtains exactly (m + k choose k) - 1 with m downloads left |
| `ShareLinkRuns.EndDownloadDrops` | api/src/modules/files/files.service.ts:1220-1226 | every write, fresh or stale, uses up at least one unit of the rank of the pending reads |
| `ShareLinkRuns.GrantsAfterRevoke` | api/src/modules/files/files.service.ts:1349-1385 | after a revocation at most one further grant per download in flight |
| `ShareLinkRuns.ClosedLinkDrains` | api/src/modules/files/files.service.ts:1114-1121 | a link that is revoked or has expired stays so, and its grants are paid for by requests already past the checks |
| `ShareLinkRuns.GrantsAfterExpiry` | api/src/modules/files/files.service.ts:1118-1121 | after the expiry at most one further grant per download in flight |
| `ShareLinkRuns.GrantsBelowGeometric` | api/src/modules/files/files.service.ts:1211-1256 | a coarser bound in closed form: with m downloads left, at most k + k^2 + ... + k^m grants |
| `ShareLinkRuns.LimitHonouredExactlyWhenSerial` | api/src/modules/files/files.service.ts:1123-1130 | the limit holds on every schedule if and only if k <= 1 or no download is left |
| `Multichoose.RankDrops` | api/src/modules/files/files.service.ts:1220-1226 | the combinatorial step behind the exact bound: releasing a read of value d and rewinding the others lowers the rank |
| `Quota.UsageNeverPassesOvershoot` | api/src/modules/files/files.service.ts:39-86 | from every settled state, used bytes plus bytes reserved by uploads in flight stay within the limit plus (k - 1) largest admissible files plus k growths |
| `Quota.OvershootAttained` | api/src/modules/files/files.service.ts:271-371 | from every settled state k > 0 overlapping uploads can reach the whole bytes of the limit plus that overshoot exactly |
| `Quota.QuotaHeldExactlyWhen` | api/src/modules/files/files.service.ts:39-86 | from every settled state, full or not, the plan is kept on every schedule iff k is 0, or images never grow and k is 1 or the limit is below one byte |
| `Quota.OnlyCreateRowAddsUsage` | api/src/modules/files/files.service.ts:344-371 | no step but the creation of a row raises a tenant's usage |
| `Quota.CreateRowAddsItsSize` | api/src/modules/files/files.service.ts:344-371 | creating a row raises its own tenant's usage by the stored size and no other's |
| `FileDisk.NextAgrees` | api/src/modules/files/files.service.ts:322-371 | every step of every operation keeps rows and blobs in agreement |
| `FileDisk.RowsAndBlobsAgree` | api/src/modules/files/files.service.ts:597-639 | after any run a row lacks a blob only while being deleted, after a crash, a refused deletion or an administrator's; every blob belongs to a row or an upload or was left behind by a crash or a failed unlink; no two rows share one |
| `FileDisk.SettledDiskIsTheTable` | api/src/modules/files/files.service.ts:844-874 | with no crash, no failed unlink and nothing in progress, the disk holds exactly the blobs of the rows that no administrator trashed and whose deletion was never refused |
| `FileDisk.SettledDiskIsTheTableExactlyWhen` | api/src/modules/files/files.service.ts:844-874 | the disk then holds exactly the blobs of all rows no administrator trashed iff no row is stranded by a refused deletion |
| `FileDisk.StrandsExactlyWhen` | api/src/modules/files/files.service.ts:866-874 | a step strands a row iff it is a DELETE of a batch with a victim a restricting table holds, and some victim was not trashed by an administrator |
| `FileDisk.NeverStrandedExactlyWhen` | api/src/modules/files/files.service.ts:611-639 | no row is stranded at any moment of a run iff no DELETE of it is of that kind |
| `FileDisk.UnrestrictedDeletesKeepAgreement` | api/src/modules/files/files.service.ts:597-639 | where no DELETE is, the settled disk is the table |
| `FileStranding.CleanupStrandsExactlyWhen` | api/src/modules/files/files.service.ts:822-874 | a sweep run alone from rest, with nothing stranded before, strands rows iff some file due for removal is held by a restricting table and some file due was not trashed by an administrator |
| `FileStranding.RefusedBatchStays` | api/src/modules/files/files.service.ts:844-874 | from any state at rest, every file of a refused batch keeps its row and loses its blobs, and repeating the sweep changes nothing |
| `FileStranding.AdminDeletionStrandsOthers` | api/src/modules/files/files.service.ts:1803-1828 | the failing input: an administrator deletes a file still referred to, and thirty days later the tenant's other trashed files are stranded with it, at every sweep |
| `FileStranding.LateReferenceStrands` | api/src/modules/files/files.service.ts:611-639 | another failing input: a reference that arrives between the check of a deletion and its DELETE strands every file of the deletion |
| `FileAging.PurgedRowsAreNinetyDaysOld` | api/src/modules/files/files.service.ts:822-874 | on every interleaving, a row cleanupTrashedFiles removes and no administrator trashed is at least 90 days old |
| `FileAging.SweepsStayInTheirTenant` | api/src/modules/files/files.service.ts:760-792 | in every reachable state a sweep leaves other tenants' rows as they are |
| `FileAging.RowsKeepIdentity` | api/src/modules/files/files.service.ts:344-371 | tenant and creation time of a row never change; a new row comes only from an upload |
| `FileAging.NextNamesOk` | api/src/modules/files/files.service.ts:344-371 | row ids are never reused while operations carry them across awaits |
| `FileTrashOnce.TrashedAtWrittenOnceExactlyWhenSerial` | api/src/modules/files/files.service.ts:760-792 | for any untrashed row, every run with at most w writers of that row at a time writes its trashed_at once iff w <= 1 |
| `FileTrashOnce.SerialWritesOnce` | api/src/modules/files/files.service.ts:1803-1828 | with one writer of a row at a time, whatever happens to other rows, no run dates it again once it is trashed |
| `FileSweepable.LinkedPdfSurvives` | api/src/modules/files/files.service.ts:684-725 | a row linked throughout as a quote's latest PDF, undated and untrashed at first, is never marked, trashed or removed by sweeps |
| `FileSweepable.UnattachedUploadIsNeverSwept` | api/src/modules/files/files.service.ts:356-366 | a file uploaded without an entity is flagged, but never dated or trashed by any run of sweeps |
| `FileSweepable.AttachedUploadIsNeverSwept` | api/src/modules/files/files.service.ts:356-366 | a file uploaded with an entity is stored with it and not flagged; while it stays attached no interleaving of sweeps flags, dates, trashes or removes it, and findOrphans does not find it |
| `FileSweepable.LinkProtectsExactlyWhenRead` | api/src/modules/files/files.service.ts:684-725 | a quote's link to an old unattached file keeps it from being dated if it arrives before findOrphans reads the links, and not if it arrives after |
| `FileSweepable.SweepableExactlyWhen` | api/src/modules/files/files.service.ts:680-792 | some sweeping run trashes a file iff it is flagged with a date, or neither flagged nor linked |
| `FileUsage.GroupByTenant` | api/src/modules/files/files.service.ts:1862-1899 | one pass over the rows, adding each to its tenant's entry, gives every tenant with files its count and its usage figure, and no other tenant an entry |
| `FileUsage.TenantStatsConserve` | api/src/modules/files/files.service.ts:1971-2024 | per-tenant bytes and files add up to the platform totals |
| `MapSums.GroupsPartitionTheTotal` | api/src/modules/files/files.service.ts:1862-1899 | grouping by tenant and summing gives the sum over all rows |
| `FilesService.LengthsMatchExactlyWhen` | api/src/modules/files/files.service.ts:1437-1449 | as many rows as requested ids are found iff no id repeats and every id is the tenant's |
| `FilesService.Files.SumSizes` | api/src/modules/files/files.service.ts:55-65 | the aggregate is the tenant's usage |
| `FilesService.Files.CheckStorageQuota` | api/src/modules/files/files.service.ts:39-86 | allowed iff the plan has no limit or usage plus the file is within it |
| `FilesService.Files.UploadFile` | api/src/modules/files/files.service.ts:271-371 | which of the three refusals is given and when; otherwise exactly one row and its blobs are added, the row with the tenant, file, size, paths and entity given, flagged as an orphan iff there is no entity, undated and untrashed, created now; usage grows by the stored size |
| `FilesService.Files.FindFileReferences` | api/src/modules/files/files.service.ts:918-975 | exactly the descriptions of the tables that refer to the file, none iff no table does |
| `FilesService.Files.Delete` | api/src/modules/files/files.service.ts:597-639 | succeeds iff the file is the tenant's and no table refers to it; removes that row, its blobs and the quotes' links to it only, and refuses without any change |
| `FilesService.Files.BulkDelete` | api/src/modules/files/files.service.ts:1435-1490 | succeeds iff no id repeats, all are the tenant's and none is referenced; then exactly those rows and their blobs go, else nothing changes |
| `FilesService.Files.FindOrphans` | api/src/modules/files/files.service.ts:680-725 | reports exactly the tenant's files without an entity, not trashed, not linked by a quote and over thirty days old, flags and dates those not flagged before, leaves every other column, and counts the rows it changed |
| `FilesService.Files.MoveOrphansToTrash` | api/src/modules/files/files.service.ts:760-792 | trashes exactly the tenant's files whose orphan date is over thirty days old, and counts the rows it changed |
| `FilesService.Files.CleanupTrashedFiles` | api/src/modules/files/files.service.ts:822-874 | unlinks the blobs of the tenant's rows trashed over thirty days ago, and then removes exactly those rows, with their number and the invoices and links to them, or none of them if a restricting table holds one |
| `FilesService.Files.DeleteFileForAdmin` | api/src/modules/files/files.service.ts:1800-1828 | keeps the row, trashed now, with its other columns as they are, and removes its blobs, once |
| `FilesService.Files.DiskIsTheTable` | api/src/modules/files/files.service.ts:597-639 | between calls, whatever calls were made, the disk holds exactly the blobs of the rows neither trashed by an administrator nor refused deletion |
| `Pagination.PagesMakeTheResult` | api/src/modules/files/files.service.ts:543-591 | pages 1 to totalPages of one ordered result, put together, are the result; no such page is empty and every later one is |
| `Pagination.PagesPartitionExactlyWhen` | api/src/modules/files/files.service.ts:543-548 | whatever order each query gives to ties, every row is on exactly one page iff no tie crosses a page boundary |
| `BrowserManager.SingleFlight` | api/src/core/puppeteer/puppeteer-process-manager.service.ts:145-172 | at most one restart runs, and the mutex is set exactly while its one initiator is inside |
| `BrowserManager.AnsweredAtOnceExactlyWhenConnected` | api/src/core/puppeteer/puppeteer-process-manager.service.ts:145-172 | on every run a call is answered at once iff a browser is connected, and then with that one; otherwise it waits on the restart in the mutex |
| `BrowserManager.LostBrowserIsReplaced` | api/src/core/puppeteer/puppeteer-process-manager.service.ts:145-190 | after the browser is lost no call is answered with it: unless a restart runs already, the next call starts one that closes what is left and launches another |
| `BrowserManager.WaitersShareOneLaunch` | api/src/core/puppeteer/puppeteer-process-manager.service.ts:152-172 | all who waited on a restart got the one browser it launched |
| `BrowserManager.WaitersAgreeOnFailure` | api/src/core/puppeteer/puppeteer-process-manager.service.ts:152-172 | no two waiters see one restart end differently |
| `BrowserManager.LaunchesBoundedByDisconnects` | api/src/core/puppeteer/puppeteer-process-manager.service.ts:177-227 | at most one launched browser is connected, and launches never exceed disconnects by more than one |
| `BrowserManager.WaitersCanProceed` | api/src/core/puppeteer/puppeteer-process-manager.service.ts:145-172 | a waiting caller's restart has settled or has a step left |
| `PuppeteerProcessManager.Manager.OnModuleInit` | api/src/core/puppeteer/puppeteer-process-manager.service.ts:49-93 | starts with one browser, connected and in the field, or with none at all if the launch failed |
| `PuppeteerProcessManager.Manager.GetBrowser` | api/src/core/puppeteer/puppeteer-process-manager.service.ts:145-172 | answers at once iff the field holds a browser that is connected, and with it; else joins the restart in the mutex, or takes the mutex and appends a restart that first closes the old browser, or launches if there is none |
| `PuppeteerProcessManager.Manager.AfterClose` | api/src/core/puppeteer/puppeteer-process-manager.service.ts:180-190 | that restart goes on to the launch; the field is cleared and the browser disconnected whether or not close() threw |
| `PuppeteerProcessManager.Manager.AfterLaunch` | api/src/core/puppeteer/puppeteer-process-manager.service.ts:192-216 | the new browser is in the field and the only one connected, and that restart goes on to store its PID |
| `PuppeteerProcessManager.Manager.AfterLaunchFailure` | api/src/core/puppeteer/puppeteer-process-manager.service.ts:217-227 | that restart has failed, the field is null and nothing is connected |
| `PuppeteerProcessManager.Manager.AfterStorePid` | api/src/core/puppeteer/puppeteer-process-manager.service.ts:205-216 | that restart settles with the browser it launched, which the field still holds |
| `PuppeteerProcessManager.Manager.ResumeCaller` | api/src/core/puppeteer/puppeteer-process-manager.service.ts:160-172 | the caller gets what its restart settled with, and only the initiator releases the mutex |
| `PidFile.StoredPidReadBackExactlyWhen` | api/src/core/puppeteer/puppeteer-process-manager.service.ts:430-473 | loadPid returns a stored PID, whatever space surrounds it, iff it is between 1 and 2147483647, and no other PID from it |
| `TtlCache.CacheService.Get` | api/src/core/cache/cache.service.ts:64-73 | the value of a key that has not expired |
| `TtlCache.CacheService.Set` | api/src/core/cache/cache.service.ts:75-81 | the key lives for the given seconds from now; other keys stay |
| `TtlCache.CacheService.Del` | api/src/core/cache/cache.service.ts:83-89 | removes that key only |
| `TtlCache.CacheService.Exists` | api/src/core/cache/cache.service.ts:91-99 | true iff a get at the same moment would find a value |
| `TokenBlocklist.EntryOutlivesExp` | api/src/core/token-blocklist/token-blocklist.service.ts:24-53 | an entry stored with the rounded-down time to live never ends before exp, and less than a second after it when computed and stored at one instant |
| `TokenBlocklist.KeysDistinct` | api/src/core/token-blocklist/token-blocklist.service.ts:24-62 | the two kinds of key never collide |
| `TokenBlocklistService.TokenBlocklistService.TrackToken` | api/src/core/token-blocklist/token-blocklist.service.ts:24-30 | remembers the token until the exp it is given, or does nothing if that has come; a run of the interleaving machine's steps |
| `TokenBlocklistService.TokenBlocklistService.BlockUserTokens` | api/src/core/token-blocklist/token-blocklist.service.ts:38-53 | blocks the remembered token and forgets the record, or does nothing; a run of the machine's steps |
| `TokenBlocklistService.BlockedStoreMeaning` | api/src/core/token-blocklist/token-blocklist.service.ts:38-53 | such a call changes its two keys only: the token is blocked until its exp, for less than a second longer at one instant, and the record is gone |
| `TokenBlocklistService.TokenBlocklistService.IsBlocked` | api/src/core/token-blocklist/token-blocklist.service.ts:60-62 | the machine's answer at that moment |
| `TokenBlocklistRuns.RejectedExactlyWhenCovered` | api/src/core/token-blocklist/token-blocklist.service.ts:60-62 | in every reachable state an unexpired token is rejected iff a block entry was written for it |
| `TokenBlocklistRuns.LatestTokenIsBlockedUntilItExpires` | api/src/core/token-blocklist/token-blocklist.service.ts:38-53 | whatever runs between and after its round trips, blockUserTokens rejects the token tracked last until it expires, if it is still on record at the GET |
| `TokenBlocklistRuns.BlocksExactlyTheOneOnRecord` | api/src/modules/auth/auth.service.ts:1061-1078 | of all unexpired tokens it newly rejects exactly the one on record |
| `TokenBlocklistRuns.LatestIsRejectedExactlyWhen` | api/src/core/token-blocklist/token-blocklist.service.ts:38-53 | the token tracked last, if unexpired, is rejected afterwards iff it was covered already or no DEL for its user ran since its SETEX |
| `TokenBlocklistRuns.DelayedDeleteSparesTheLatest` | api/src/core/token-blocklist/token-blocklist.service.ts:50-53 | the failing run: a login between the SETEX and the DEL of blockUserTokens leaves a token that a further call does not block |
| `TokenBlocklistRuns.UndisturbedTokenCanBeBlocked` | api/src/core/token-blocklist/token-blocklist.service.ts:24-53 | a token stored while no blockUserTokens of its user is past its GET is rejected by every later call while it is the latest and unexpired |
| `TokenBlocklistRuns.BlockIsPermanent` | api/src/core/token-blocklist/token-blocklist.service.ts:38-62 | a block entry lasts until the token expires, whatever else happens |
| `AuthRuns.ActivationInvariant` | api/src/modules/auth/auth.service.ts:622-651 | on every run is_active equals email_verified and an activation token is stored exactly while inactive |
| `AuthRuns.ActivatesExactlyWhen` | api/src/modules/auth/auth.service.ts:622-651 | exactly the newest activation token, for 24 hours and until used, activates |
| `AuthRuns.RegisteredUserMayLogIn` | api/src/modules/auth/auth.service.ts:241-345 | on every run, whoever registers, activates within 24 hours, is not deleted and keeps the membership and the password may log in with the password given, whatever else happens |
| `AuthRuns.NobodyIsPlatformAdmin` | api/src/modules/auth/auth.service.ts:144-158 | no run makes anyone a platform administrator, so a login always takes a membership |
| `AuthRuns.ResetsExactlyWhen` | api/src/modules/auth/auth.service.ts:501-600 | exactly the newest reset token, for one hour and before its first use, resets |
| `AuthRuns.DeletedUserIsLockedOut` | api/src/modules/auth/auth.service.ts:241-248 | on every run, a deleted user never logs in again and is sent no reset or activation token |
| `AuthRuns.EndedMembershipLocksOut` | api/src/modules/auth/auth.service.ts:265-345 | on every run, a user whose membership ended does not log in until it is given back |
| `AuthRuns.ForgotIssuesOne` | api/src/modules/auth/auth.service.ts:501-528 | a request for an active user adds exactly one token to those issued to that user, and none to others |
| `AuthRuns.ResetsNeverExceedIssues` | api/src/modules/auth/auth.service.ts:501-600 | a user's resets never exceed the reset tokens issued to that user |
| `AuthRuns.ResetEndsSessions` | api/src/modules/auth/auth.service.ts:560-600 | a reset sets the password, spends the token, is counted once and leaves that user, and no other, without unrevoked sessions |
| `AuthRuns.TokenHasOneHolder` | api/src/modules/auth/auth.service.ts:560-575 | no token is held by two users, so findFirst has one answer |
| `AuthSessions.ListSessionsIsTheLiveSet` | api/src/modules/auth/auth.service.ts:930-956 | on every run listSessions is exactly the replay of the log: issued, not revoked since, not expired |
| `AuthSessions.OperationsStayWithTheirUser` | api/src/modules/auth/auth.service.ts:444-496 | an operation changes a session row only by revoking it, once, for its own user |
| `AuthSessions.RevocationIsPermanent` | api/src/modules/auth/auth.service.ts:444-496 | a revoked row never changes again |
| `AuthSessions.ChangePasswordKeepsOnly` | api/src/modules/auth/auth.service.ts:888-911 | changePassword leaves unrevoked exactly the rows with the kept hash |
| `AuthSessions.LogoutIsFinalExactlyWhen` | api/src/modules/auth/auth.service.ts:1080-1088 | a logged-out refresh token is never accepted again iff the second it was signed in is over |
| `AuthService.Auth.Register` | api/src/modules/auth/auth.service.ts:144-158 | refused iff the email is taken; else one user, inactive, with that email and password, a 24-hour activation token and a membership, neither deleted nor a platform administrator; no other user changes |
| `AuthService.Auth.Login` | api/src/modules/auth/auth.service.ts:241-345 | succeeds iff a user not deleted has that email and password, is active and verified and has a membership or is a platform administrator, each refusal with its condition; adds one session row with the token's hash, of 30 days with rememberMe and 7 without |
| `AuthService.Auth.Refresh` | api/src/modules/auth/strategies/jwt-refresh.strategy.ts:32-82 | issues an access token iff the token is unexpired, an unrevoked, unexpired row of the user holds its hash, and the user is active with a membership or a platform administrator |
| `AuthService.Auth.IssueTokensForMembership` | api/src/modules/auth/auth.service.ts:1014-1044 | adds one session row of 7 days with the new token's hash, and nothing else |
| `AuthService.Auth.RevokeMatching` | api/src/modules/auth/auth.service.ts:471-485 | updateMany: revokes exactly the matching rows and reports how many |
| `AuthService.Auth.Logout` | api/src/modules/auth/auth.service.ts:444-466 | revokes exactly the user's rows with that hash |
| `AuthService.Auth.LogoutAll` | api/src/modules/auth/auth.service.ts:471-496 | reports exactly the number of rows it revoked and leaves the user none |
| `AuthService.Auth.ForgotPassword` | api/src/modules/auth/auth.service.ts:501-528 | stores a one-hour reset token for an active user and nothing otherwise |
| `AuthService.Auth.ResetPassword` | api/src/modules/auth/auth.service.ts:560-600 | succeeds iff an unexpired reset token matches; clears it and revokes the user's sessions |
| `AuthService.Auth.ActivateAccount` | api/src/modules/auth/auth.service.ts:622-651 | succeeds iff an unexpired activation token of a user not yet activated matches; activates that user and clears the token |
| `AuthService.Auth.ResendActivation` | api/src/modules/auth/auth.service.ts:670-700 | replaces the activation token of an inactive user |
| `AuthService.Auth.ChangePassword` | api/src/modules/auth/auth.service.ts:838-911 | which of the three refusals is given, each with its exact condition; else the new hash is stored and the other sessions are revoked |
| `AuthService.Auth.ListSessions` | api/src/modules/auth/auth.service.ts:930-956 | exactly the user's rows neither revoked nor expired, which are those the replay of the log has live, the current one marked |
| `AuthService.SessionLifetime` | api/src/modules/auth/auth.service.ts:241-345 | a session row is live as long as its refresh token and ends within the second the token does |
| `AuthService.Auth.RevokeSession` | api/src/modules/auth/auth.service.ts:961-990 | revokes the user's row with that id, or reports that there is none |
| `RbacSeed.Seeder.SeedModules` | api/prisma/seeds/rbac.seed.ts:779-799 | upserts every defined module, in order |
| `RbacSeed.Seeder.SeedPermissions` | api/prisma/seeds/rbac.seed.ts:801-843 | upserts every permission whose module exists |
| `RbacSeed.Seeder.ResolveTemplate` | api/prisma/seeds/rbac.seed.ts:869-897 | the ids to link create what the grant resolves to |
| `RbacSeed.Seeder.RewriteTemplate` | api/prisma/seeds/rbac.seed.ts:853-912 | upserts the template, deletes its links and creates them up to the first that breaks the unique index |
| `RbacSeed.Seeder.SeedRoleTemplates` | api/prisma/seeds/rbac.seed.ts:845-918 | rewrites the templates in order and stops at the first failure |
| `RbacSeed.Seeder.SeedDefaultRoles` | api/prisma/seeds/rbac.seed.ts:920-979 | gives each role the links of its template, skipping templates that do not exist |
| `RbacSeed.Seeder.Seed` | api/prisma/seeds/rbac.seed.ts:985-999 | the database after all phases, the last one skipped after a failure |
| `RbacSeedProofs.SeedingTwiceIsSeedingOnce` | api/prisma/seeds/rbac.seed.ts:779-999 | from any database and for any definitions, a second run changes nothing and fails iff the first did |
| `RbacSeedProofs.SeedFailsExactlyWhen` | api/prisma/seeds/rbac.seed.ts:880-912 | a run fails iff some template's list names twice a permission in the old catalogue, or defined under a module that exists or is defined; read off the definitions and the database before the run |
| `RbacSeedProofs.CatalogueForeseen` | api/prisma/seeds/rbac.seed.ts:779-843 | which permissions the template phase will find, told from the definitions and the database before the run |
| `RbacSeedProofs.SeededRolesHoldTheirTemplate` | api/prisma/seeds/rbac.seed.ts:845-979 | afterwards each defined template and role holds exactly what the template's last definition covers |
| `RbacSeedProofs.GrantedIsTheResolution` | api/prisma/seeds/rbac.seed.ts:869-897 | the links made are the permissions the grant covers: all, all outside the excepted modules, or those listed |
| `RbacSeedProofs.LinkedExactlyWhenGranted` | api/prisma/seeds/rbac.seed.ts:869-979 | a permission of a module is linked to a defined template and to its role iff the last definition grants all, or excepts other modules only, or lists a string that names the pair |
| `RbacSeedProofs.NamesOnePair` | api/prisma/seeds/rbac.seed.ts:883-887 | a string of two names joined by a colon names that pair of module and action and no other |
| `RbacSeedProofs.OtherRolesAreUntouched` | api/prisma/seeds/rbac.seed.ts:920-979 | a role no template names keeps its row and links |
| `RbacSeedProofs.OtherTemplatesAreUntouched` | api/prisma/seeds/rbac.seed.ts:845-918 | a template that is not defined keeps its row and links |
| `RbacSeedProofs.CatalogueIsAsDefined` | api/prisma/seeds/rbac.seed.ts:779-843 | nothing is dropped or renumbered, exactly the defined modules and permissions of existing modules are there afterwards, and each defined one carries the text of its last definition |
| `RbacSeedProofs.SeedingKeepsKeys` | api/prisma/seeds/rbac.seed.ts:779-979 | primary keys stay unique |
| `Json.StringifyInjective` | app/src/components/audit/BeforeAfterDiff.tsx:337 | two values print alike iff they are the same, member order included |
| `AuditDiff.CalculateDiff` | app/src/components/audit/BeforeAfterDiff.tsx:316-357 | one entry for each key of either side, none twice; at a key neither side inherits, with both sides' own values: added iff only after has one, removed iff only before has one, modified iff both have and they differ, unchanged iff they are equal, and nested iff either is an object or array |
| `AuditDiff.EntriesReport` | app/src/components/audit/BeforeAfterDiff.tsx:316-357 | the same for every entry of a diff, from the values the records list rather than from the code's tests |
| `AuditDiff.InheritedEntries` | app/src/components/audit/BeforeAfterDiff.tsx:326-341 | at a key one side inherits, the entry takes the inherited property for that side's value, and shows removed or added when the other side has no value, unchanged for an own empty object named __proto__, and modified otherwise |
| `AuditDiff.DiffIsAPatchExactlyWhen` | app/src/components/audit/BeforeAfterDiff.tsx:316-357 | applying the entries gives after, undoing them gives before, iff no key one side lacks is an inherited name |
| `AuditDiff.ChangedEntriesSuffice` | app/src/components/audit/BeforeAfterDiff.tsx:65-67 | the entries left by the changed-only filter are a patch both ways under exactly the same condition |
| `AuditDiff.UnchangedExactlyWhenEqual` | app/src/components/audit/BeforeAfterDiff.tsx:331-341 | an entry is 'unchanged' iff both values are the same |
| `AuditDiff.ReorderedMembersShowAsModified` | app/src/components/audit/BeforeAfterDiff.tsx:337 | member order alone makes an entry 'modified' |
| `AuditDiff.AddedToStringShowsAsModified` | app/src/components/audit/BeforeAfterDiff.tsx:326-327 | an added key named like an inherited property shows as modified |
| `FileStorageService.FileStorageService.UploadLogo` | api/src/core/file-storage/file-storage.service.ts:34-74 | refused for a type other than PNG, JPEG and SVG, then for more than 5 MB; else exactly one name, the id and the extension, is added under images, and its URL returned |
| `FileStorageService.FileStorageService.UploadDocument` | api/src/core/file-storage/file-storage.service.ts:79-119 | refused for a type other than PDF, PNG and JPEG, then for more than 10 MB; else exactly one name, the id and the extension, is added under files, and its URL returned |
| `FileStorageService.FileStorageService.UploadFile` | api/src/core/file-storage/file-storage.service.ts:145-190 | refused for a type not among those allowed, then for its size; else one name, the id and the extension, is added in the category's folder and its URL returned |
| `FileStorageService.FileStorageService.FindByPrefix` | api/src/core/file-storage/file-storage.service.ts:131-134 | some name that begins with the id, or none if there is none |
| `FileStorageService.FileStorageService.DeleteFile` | api/src/core/file-storage/file-storage.service.ts:124-140 | throws iff the directory is missing; else removes one name that begins with the id, or none if there is none, and nothing else |
| `FileStorageService.FileStorageService.GetFileInfo` | api/src/core/file-storage/file-storage.service.ts:195-224 | a match, from images before files, or none; for fresh 36-character ids, exactly what the log of all calls says |
| `FileStorageService.FileStorageService.DeleteFileByPath` | api/src/core/file-storage/file-storage.service.ts:229-235 | that name goes from that directory if it is there, and nothing else changes |
| `FileStorageRuns.LookupAnswersTheLog` | api/src/core/file-storage/file-storage.service.ts:34-224 | after any run the one possible answer for an id is what its upload returned until a matching delete, and not-found otherwise |
| `FileStorageRuns.DeleteAffectsOneId` | api/src/core/file-storage/file-storage.service.ts:124-140 | a delete changes the answer for its own tenant and id only, and only in its folder |
| `FileStorageRuns.ShorterIdDeletesAnother` | api/src/core/file-storage/file-storage.service.ts:134 | the fixed id length matters: a shorter id deletes what begins with it |
| `FileStorage.ExtensionFollowsTheLastDot` | api/src/core/file-storage/file-storage.service.ts:59 | the extension kept is what follows the last dot of the name |
| `FormattedInputs.SanitizersAreIdempotent` | api/src/common/validators/formatted-inputs.ts:29-225 | phone, EIN, ZIP and date sanitizers give a normal form on every string |
| `FormattedInputs.FormattingKeepsDigits` | api/src/common/validators/formatted-inputs.ts:60-106 | EIN and ZIP formatting keep the digit sequence |
| `FormattedInputs.NineDigitsGetTheirHyphen` | api/src/common/validators/formatted-inputs.ts:29-106 | nine digits, however punctuated, become 12-3456789 or 12345-6789; a phone number is digits only, without the 1 before ten others |
| `FormattedInputs.DatesAreCompleted` | api/src/common/validators/formatted-inputs.ts:190-225 | a plain date becomes noon UTC, a time without a zone UTC, everything else stays |
| `FormattedInputs.CountryCodeIsStripped` | api/src/common/validators/formatted-inputs.ts:29-43 | ten digits give the same phone with or without a leading 1, however punctuated |
| `FormattedInputs.ToArrayRestoresExactlyWhen` | api/src/common/validators/formatted-inputs.ts:241-259 | a joined list is restored iff every element is trimmed, comma-free and not empty |

## Left out

- Prisma, Redis, BullMQ, S3, sharp, archiver, bcrypt, JWT signing and random bytes are foreign: tables and stores are maps, hashes are injective, random ids and paths are fresh, a refresh token is determined by its claims, and the stored size of a processed image is a parameter bounded by an explicit growth.
- Time: thirty days are 30 times 24 hours; the server's calendar and daylight saving are not modelled.
- Text equality is exact; the database's collation and the case-insensitive filename search are not modelled.
- Allowed mime types of an upload category: one flag in `FilesService.Files.UploadFile`; the tables of types would only add constants.
- The response texts of the reference checks beyond their number, audit-log rows, emails and queues: they do not feed back into the state.
- The other columns that refer to a file (logos, insurance, licenses, crew photos, quote attachments): the database clears them or removes their rows when the file goes, and no operation here reads them. Share-link rows removed with their file likewise, and the deprecated `accessShareLink`, which repeats the download.
- `bulkDownload`, `findOne`, listings and other filters of `findAll`: read-only, easy members.
- `closeBrowser`, `onModuleDestroy` and the killing of processes: operating-system effects; the single-flight claims are about runs without them.
- An unlink that fails is a step that leaves the blob behind; a failed write of a blob ends the upload like a crash.
- `findFileReferences` awaits each table in turn; the model reads the references of all the files of a deletion at one moment, the start of the operation. References that come between that moment and the DELETE are modelled.
- Redis failures, which the cache service swallows: the store always answers.
- `FileStorage`: original names hold no path separator, as the upload middleware hands over base names; upload ids are 36 characters and never repeated, which `FileStorageRuns` states as a hypothesis.
- AuthRuns: each operation runs to its end before the next; users come from `register`, so activation and deactivation by other services and the data-cleanup job are not part of the runs. Tenant and subdomain creation in `register`, profiles and device names are not modelled.
- RbacSeed: each phase runs alone against the database, and the ids and dates of link rows, which every run draws anew, are not part of the state.
- AuditDiff: numbers are known by their printed text, nested values are JSON (no nested undefined), strings have no lone surrogates; rendering and redaction are display only.
- The remaining React pages, controllers, other seeds, lookup tables and the unfinished `files.service.enhanced.ts`: wiring or fixed data.
