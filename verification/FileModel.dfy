/** The rows behind files.service.ts and the queries and updates its methods send to the database. */
module FileModel {
  import opened Wrappers

  /** Times are milliseconds. `thumbnailPath` is Some exactly when has_thumbnail is set. */
  datatype FileRow = FileRow(
    fileId: string,
    tenantId: string,
    sizeBytes: nat,
    entityId: Option<string>,
    isOrphan: bool,
    orphanedAt: Option<int>,
    isTrashed: bool,
    trashedAt: Option<int>,
    storagePath: string,
    thumbnailPath: Option<string>,
    createdAt: int)

  type Rows = map<string, FileRow>

  datatype Quote = Quote(tenantId: string, latestPdfFileId: Option<string>)

  type Quotes = map<string, Quote>

  /** Which of the seven referencing tables hold a given file_id. */
  datatype References = References(
    receipt: Option<bool>,  // Some(linked to a financial entry)
    projectDocument: bool,
    projectPhoto: bool,
    projectLogAttachment: bool,
    subcontractorDocument: bool,
    vendorSignature: bool,
    subcontractorInvoice: bool)
  {
    predicate Any() {
      Restricts() || subcontractorInvoice
    }

    /** The foreign keys of these tables forbid deleting the file; the one of subcontractor_task_invoice
        sets its column to null. */
    predicate Restricts() {
      || receipt.Some? || projectDocument || projectPhoto
      || projectLogAttachment || subcontractorDocument || vendorSignature
    }
  }

  const DAY: int := 24 * 60 * 60 * 1000
  const GRACE: int := 30 * DAY

  function Blobs(row: FileRow): set<string> {
    {row.storagePath} + if row.thumbnailPath.Some? then {row.thumbnailPath.value} else {}
  }

  function BlobsOf(rows: Rows): (blobs: set<string>)
    ensures forall p :: p in blobs <==> exists id :: id in rows && p in Blobs(rows[id])
  {
    set id, p | id in rows && p in Blobs(rows[id]) :: p
  }

  /** prisma.file.create in uploadFile: is_orphan is set for unattached files, orphaned_at is not. */
  function NewRow(fileId: string, tenantId: string, sizeBytes: nat, entityId: Option<string>,
                  storagePath: string, thumbnailPath: Option<string>, now: int): FileRow
  {
    FileRow(fileId, tenantId, sizeBytes, entityId, entityId.None?, None, false, None, storagePath, thumbnailPath, now)
  }

  function LinkedPdfFileIds(quotes: Quotes, tenantId: string): set<string> {
    set q | q in quotes && quotes[q].tenantId == tenantId && quotes[q].latestPdfFileId.Some?
      :: quotes[q].latestPdfFileId.value
  }

  // findOrphans

  function OrphanCandidates(rows: Rows, tenantId: string, linked: set<string>, now: int): set<string> {
    set id | id in rows && rows[id].tenantId == tenantId && rows[id].entityId.None?
      && rows[id].createdAt <= now - GRACE && !rows[id].isTrashed && id !in linked
  }

  function Unmarked(rows: Rows, ids: set<string>): set<string> {
    set id | id in ids && id in rows && !rows[id].isOrphan
  }

  function MarkOrphans(rows: Rows, ids: set<string>, now: int): Rows {
    map id | id in rows :: if id in ids then rows[id].(isOrphan := true, orphanedAt := Some(now)) else rows[id]
  }

  // moveOrphansToTrash

  function TrashCandidates(rows: Rows, tenantId: string, now: int): set<string> {
    set id | id in rows && rows[id].tenantId == tenantId && rows[id].isOrphan
      && rows[id].orphanedAt.Some? && rows[id].orphanedAt.value <= now - GRACE && !rows[id].isTrashed
  }

  function MarkTrashed(rows: Rows, ids: set<string>, now: int): Rows {
    map id | id in rows :: if id in ids then rows[id].(isTrashed := true, trashedAt := Some(now)) else rows[id]
  }

  // cleanupTrashedFiles

  function PurgeCandidates(rows: Rows, tenantId: string, now: int): set<string> {
    set id | id in rows && rows[id].tenantId == tenantId && rows[id].isTrashed
      && rows[id].trashedAt.Some? && rows[id].trashedAt.value <= now - GRACE
  }

  function Restrict(rows: Rows, ids: set<string>): Rows {
    map id | id in rows && id in ids :: rows[id]
  }

  // delete and bulkDelete

  function Targets(rows: Rows, tenantId: string, fileIds: set<string>): set<string> {
    set id | id in rows && rows[id].tenantId == tenantId && rows[id].fileId in fileIds
  }

  predicate Referenced(references: map<string, References>, fileId: string) {
    fileId in references && references[fileId].Any()
  }

  // The database's part in deleting rows

  /** Some row to be deleted is held by a table that forbids it: the whole statement is refused. */
  predicate Refused(rows: Rows, references: map<string, References>, ids: set<string>) {
    exists id :: id in ids && id in rows && rows[id].fileId in references && references[rows[id].fileId].Restricts()
  }

  /** Quotes that point at a deleted row are set to null. */
  function DropLinks(quotes: Quotes, ids: set<string>): Quotes {
    map q | q in quotes ::
      if quotes[q].latestPdfFileId.Some? && quotes[q].latestPdfFileId.value in ids
      then quotes[q].(latestPdfFileId := None) else quotes[q]
  }

  function FileIds(rows: Rows, ids: set<string>): set<string> {
    set id | id in ids && id in rows :: rows[id].fileId
  }

  /** Invoices that point at a deleted file are set to null. */
  function DropInvoices(references: map<string, References>, fileIds: set<string>): map<string, References> {
    map f | f in references :: if f in fileIds then references[f].(subcontractorInvoice := false) else references[f]
  }

  /** file_id is unique in the table. */
  ghost predicate UniqueFileIds(rows: Rows) {
    forall a, b | a in rows && b in rows && rows[a].fileId == rows[b].fileId :: a == b
  }

  function SetOf(s: seq<string>): (r: set<string>)
    ensures forall x :: x in r <==> x in s
  {
    set x | x in s
  }

  ghost predicate NoDuplicates(s: seq<string>) {
    forall i, j | 0 <= i < j < |s| :: s[i] != s[j]
  }
}
