/** All file operations of files.service.ts running side by side. Every operation is split at its
    awaits into segments; the segments of different operations interleave in any order. */
module FileRuns {
  import opened Wrappers
  import opened FileModel

  /** An operation between two of its awaits. */
  datatype Job =
    | Upload(id: string, row: FileRow, unwritten: set<string>)
    | LinksRead(tenantId: string, linked: set<string>)       // findOrphans after its first query
    | Marking(tenantId: string, ids: set<string>)            // findOrphans before its update
    | Trashing(tenantId: string, ids: set<string>)           // moveOrphansToTrash before its update
    | Purging(tenantId: string, victims: Rows, blobs: set<string>, sweep: bool)  // cleanupTrashedFiles is a sweep
    | AdminPurging(id: string, row: FileRow, blobs: set<string>)

  /** `used` are the row ids drawn so far, `owner` the blob paths drawn so far with the id each was
      drawn for. The last four fields are history: rows trashed by an administrator, rows whose
      deletion crashed, rows whose deletion the database refused, and blobs of crashed uploads or
      failed unlinks. */
  datatype Sys = Sys(
    rows: Rows,
    disk: set<string>,
    quotes: Quotes,
    references: map<string, References>,
    now: int,
    jobs: map<nat, Job>,
    used: set<string>,
    owner: map<string, string>,
    adminTrashed: set<string>,
    damaged: set<string>,
    refused: set<string>,
    leaked: set<string>)

  datatype Step =
    | Tick(elapsed: nat)
    | SetEntity(id: string, entityId: Option<string>)        // other modules attach and detach files
    | SetQuote(quoteId: string, quote: Quote)
    | SetReferences(fileId: string, refs: References)
    | StartUpload(j: nat, id: string, fileId: string, tenantId: string, sizeBytes: nat, entityId: Option<string>,
                  storagePath: string, thumbnailPath: Option<string>)
    | WriteBlob(j: nat, path: string)
    | CreateRow(j: nat)
    | ReadLinks(j: nat, tenantId: string)
    | ScanOrphans(j: nat)
    | ApplyMarks(j: nat)
    | ScanTrash(j: nat, tenantId: string)
    | ApplyTrash(j: nat)
    | ScanPurge(j: nat, tenantId: string)
    | StartDelete(j: nat, tenantId: string, fileIds: seq<string>)
    | StartAdminDelete(j: nat, id: string)
    | Unlink(j: nat, path: string)
    | UnlinkFails(j: nat, path: string)                      // swallowed, the operation goes on
    | DropRows(j: nat)
    | FinishAdminDelete(j: nat)
    | Crash(j: nat)

  /** The guard of delete and bulkDelete. */
  predicate DeleteAllowed(s: Sys, tenantId: string, fileIds: seq<string>) {
    && |Targets(s.rows, tenantId, SetOf(fileIds))| == |fileIds|
    && forall id | id in Targets(s.rows, tenantId, SetOf(fileIds)) :: !Referenced(s.references, s.rows[id].fileId)
  }

  function Forget(jobs: map<nat, Job>, j: nat): map<nat, Job> {
    map i | i in jobs && i != j :: jobs[i]
  }

  function StartPurge(s: Sys, j: nat, tenantId: string, ids: set<string>, sweep: bool): Sys {
    var victims := Restrict(s.rows, ids);
    s.(jobs := s.jobs[j := Purging(tenantId, victims, BlobsOf(victims), sweep)])
  }

  /** The DELETE of file rows, whose blobs are gone: all of them go, or the database refuses and all stay. */
  function DeleteRows(s: Sys, ids: set<string>): Sys {
    if Refused(s.rows, s.references, ids) then s.(refused := s.refused + ids * s.rows.Keys)
    else
      s.(rows := s.rows - ids, quotes := DropLinks(s.quotes, ids),
         references := DropInvoices(s.references, FileIds(s.rows, ids)))
  }

  // One function per segment; a segment that is not enabled leaves the state alone.

  function DoSetEntity(s: Sys, id: string, entityId: Option<string>): Sys {
    if id in s.rows then s.(rows := s.rows[id := s.rows[id].(entityId := entityId)]) else s
  }

  function DoStartUpload(s: Sys, j: nat, id: string, row: FileRow): Sys {
    if j in s.jobs || id in s.used || Blobs(row) * s.owner.Keys != {} || row.thumbnailPath == Some(row.storagePath)
    then s
    else
      s.(jobs := s.jobs[j := Upload(id, row, Blobs(row))], used := s.used + {id},
         owner := s.owner + map p | p in Blobs(row) :: id)
  }

  function DoWriteBlob(s: Sys, j: nat, path: string): Sys {
    if j in s.jobs && s.jobs[j].Upload? && path in s.jobs[j].unwritten
    then s.(disk := s.disk + {path}, jobs := s.jobs[j := s.jobs[j].(unwritten := s.jobs[j].unwritten - {path})])
    else s
  }

  function DoCreateRow(s: Sys, j: nat): Sys {
    if j in s.jobs && s.jobs[j].Upload? && s.jobs[j].unwritten == {}
    then s.(rows := s.rows[s.jobs[j].id := s.jobs[j].row.(createdAt := s.now)], jobs := Forget(s.jobs, j))
    else s
  }

  function DoReadLinks(s: Sys, j: nat, tenantId: string): Sys {
    if j in s.jobs then s else s.(jobs := s.jobs[j := LinksRead(tenantId, LinkedPdfFileIds(s.quotes, tenantId))])
  }

  function DoScanOrphans(s: Sys, j: nat): Sys {
    if j in s.jobs && s.jobs[j].LinksRead? then
      var ids := OrphanCandidates(s.rows, s.jobs[j].tenantId, s.jobs[j].linked, s.now);
      s.(jobs := s.jobs[j := Marking(s.jobs[j].tenantId, Unmarked(s.rows, ids))])
    else s
  }

  function DoApplyMarks(s: Sys, j: nat): Sys {
    if j in s.jobs && s.jobs[j].Marking?
    then s.(rows := MarkOrphans(s.rows, s.jobs[j].ids, s.now), jobs := Forget(s.jobs, j))
    else s
  }

  function DoScanTrash(s: Sys, j: nat, tenantId: string): Sys {
    if j in s.jobs then s else s.(jobs := s.jobs[j := Trashing(tenantId, TrashCandidates(s.rows, tenantId, s.now))])
  }

  function DoApplyTrash(s: Sys, j: nat): Sys {
    if j in s.jobs && s.jobs[j].Trashing?
    then s.(rows := MarkTrashed(s.rows, s.jobs[j].ids, s.now), jobs := Forget(s.jobs, j))
    else s
  }

  function DoStartAdminDelete(s: Sys, j: nat, id: string): Sys {
    if j in s.jobs || id !in s.rows || s.rows[id].isTrashed then s
    else s.(jobs := s.jobs[j := AdminPurging(id, s.rows[id], Blobs(s.rows[id]))])
  }

  predicate IsDeleting(s: Sys, j: nat) {
    j in s.jobs && (s.jobs[j].Purging? || s.jobs[j].AdminPurging?)
  }

  function DoUnlink(s: Sys, j: nat, path: string): Sys {
    if IsDeleting(s, j) && path in s.jobs[j].blobs
    then s.(disk := s.disk - {path}, jobs := s.jobs[j := s.jobs[j].(blobs := s.jobs[j].blobs - {path})])
    else s
  }

  function DoUnlinkFails(s: Sys, j: nat, path: string): Sys {
    if IsDeleting(s, j) && path in s.jobs[j].blobs
    then s.(leaked := s.leaked + {path}, jobs := s.jobs[j := s.jobs[j].(blobs := s.jobs[j].blobs - {path})])
    else s
  }

  function DoDropRows(s: Sys, j: nat): Sys {
    if j in s.jobs && s.jobs[j].Purging? && s.jobs[j].blobs == {}
    then DeleteRows(s, s.jobs[j].victims.Keys).(jobs := Forget(s.jobs, j))
    else s
  }

  function DoFinishAdminDelete(s: Sys, j: nat): Sys {
    if j in s.jobs && s.jobs[j].AdminPurging? && s.jobs[j].blobs == {} then
      var id := s.jobs[j].id;
      s.(rows := MarkTrashed(s.rows, {id}, s.now), adminTrashed := s.adminTrashed + if id in s.rows then {id} else {},
         jobs := Forget(s.jobs, j))
    else s
  }

  /** The rows a deletion in progress was about to remove or trash. */
  function HalfDeleted(job: Job): set<string> {
    match job
    case Purging(_, victims, _, _) => victims.Keys
    case AdminPurging(id, _, _) => {id}
    case _ => {}
  }

  function DoCrash(s: Sys, j: nat): Sys {
    if j !in s.jobs then s
    else
      var job := s.jobs[j];
      s.(jobs := Forget(s.jobs, j), damaged := s.damaged + HalfDeleted(job),
         leaked := s.leaked + if job.Upload? then Blobs(job.row) - job.unwritten else {})
  }

  function Next(s: Sys, step: Step): Sys {
    match step
    case Tick(elapsed) => s.(now := s.now + elapsed)
    case SetEntity(id, entityId) => DoSetEntity(s, id, entityId)
    case SetQuote(quoteId, quote) => s.(quotes := s.quotes[quoteId := quote])
    case SetReferences(fileId, refs) => s.(references := s.references[fileId := refs])
    case StartUpload(j, id, fileId, tenantId, sizeBytes, entityId, storagePath, thumbnailPath) =>
      DoStartUpload(s, j, id, NewRow(fileId, tenantId, sizeBytes, entityId, storagePath, thumbnailPath, s.now))
    case WriteBlob(j, path) => DoWriteBlob(s, j, path)
    case CreateRow(j) => DoCreateRow(s, j)
    case ReadLinks(j, tenantId) => DoReadLinks(s, j, tenantId)
    case ScanOrphans(j) => DoScanOrphans(s, j)
    case ApplyMarks(j) => DoApplyMarks(s, j)
    case ScanTrash(j, tenantId) => DoScanTrash(s, j, tenantId)
    case ApplyTrash(j) => DoApplyTrash(s, j)
    case ScanPurge(j, tenantId) =>
      if j in s.jobs then s else StartPurge(s, j, tenantId, PurgeCandidates(s.rows, tenantId, s.now), true)
    case StartDelete(j, tenantId, fileIds) =>
      if j in s.jobs || !DeleteAllowed(s, tenantId, fileIds) then s
      else StartPurge(s, j, tenantId, Targets(s.rows, tenantId, SetOf(fileIds)), false)
    case StartAdminDelete(j, id) => DoStartAdminDelete(s, j, id)
    case Unlink(j, path) => DoUnlink(s, j, path)
    case UnlinkFails(j, path) => DoUnlinkFails(s, j, path)
    case DropRows(j) => DoDropRows(s, j)
    case FinishAdminDelete(j) => DoFinishAdminDelete(s, j)
    case Crash(j) => DoCrash(s, j)
  }

  predicate WritesRows(step: Step) {
    || step.SetEntity? || step.CreateRow? || step.ApplyMarks? || step.ApplyTrash? || step.DropRows?
    || step.FinishAdminDelete?
  }

  lemma OtherStepsKeepRows(s: Sys, step: Step)
    requires !WritesRows(step)
    ensures Next(s, step).rows == s.rows && Next(s, step).adminTrashed == s.adminTrashed
  {
  }

  function Run(s: Sys, steps: seq<Step>): Sys
    decreases |steps|
  {
    if steps == [] then s else Run(Next(s, steps[0]), steps[1..])
  }

  /** A service with no request in progress, on a table whose rows and blobs agree. */
  ghost predicate Quiet(s: Sys) {
    && s.jobs == map[] && s.leaked == {} && s.damaged == {} && s.refused == {} && s.adminTrashed == {}
    && s.rows.Keys <= s.used
    && s.disk == BlobsOf(s.rows)
    && (forall id | id in s.rows :: OwnedBy(s.owner, id, s.rows[id]))
  }

  /** The blobs of `row` were drawn for `id`, and its thumbnail is not its main file. */
  ghost predicate OwnedBy(owner: map<string, string>, id: string, row: FileRow) {
    && row.thumbnailPath != Some(row.storagePath)
    && forall p | p in Blobs(row) :: p in owner && owner[p] == id
  }
}
