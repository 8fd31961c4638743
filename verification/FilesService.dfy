/** files.service.ts on local storage with every method run to its end before the next begins. The ghost
    `run` is the interleaving machine's state: each method is the run of that operation's segments. */
module FilesService {
  import opened Wrappers
  import opened FileModel
  import opened FileUsage
  import opened FileRuns
  import opened FileScripts
  import opened FileDisk
  import opened FileAging
  import opened MapSums
  import Quota

  datatype FileError =
    | InvalidType
    | TooLarge
    | QuotaExceeded
    | NotFound
    | InUse
    | AlreadyDeleted
    | ForeignKeyRestricts

  // ---- Pigeonhole: comparing lengths is comparing contents. ----

  lemma {:induction false} SetOfSize(s: seq<string>)
    ensures |SetOf(s)| <= |s|
    ensures |SetOf(s)| == |s| <==> NoDuplicates(s)
  {
    if s == [] {
      assert SetOf(s) == {};
    } else {
      SetOfSize(s[1..]);
      assert SetOf(s) == SetOf(s[1..]) + {s[0]};
      assert s[0] in SetOf(s[1..]) <==> exists k :: 0 < k < |s| && s[k] == s[0] by {
        if k :| 0 < k < |s| && s[k] == s[0] { assert s[1..][k - 1] == s[0]; }
      }
      if NoDuplicates(s[1..]) {
        forall i, j | 0 < i < j < |s| ensures s[i] != s[j] { assert s[1..][i - 1] == s[i] && s[1..][j - 1] == s[j]; }
      } else {
        var i, j :| 0 <= i < j < |s[1..]| && s[1..][i] == s[1..][j];
        assert s[i + 1] == s[j + 1];
      }
    }
  }

  lemma {:induction false} UniqueIdsKeepSize(rows: Rows, ids: set<string>)
    requires UniqueFileIds(rows) && ids <= rows.Keys
    ensures |FileIds(rows, ids)| == |ids|
    decreases |ids|
  {
    if id :| id in ids {
      UniqueIdsKeepSize(rows, ids - {id});
      assert FileIds(rows, ids) == FileIds(rows, ids - {id}) + {rows[id].fileId};
      assert rows[id].fileId !in FileIds(rows, ids - {id});
    }
  }

  lemma SubsetOfSameSize(a: set<string>, b: set<string>)
    requires a <= b
    ensures |a| <= |b| && (|a| == |b| <==> a == b)
  {
    assert b == a + (b - a) && |b| == |a| + |b - a|;
  }

  /** A file of the tenant carries this file_id. */
  ghost predicate Owns(rows: Rows, tenantId: string, fileId: string) {
    exists id :: id in rows && rows[id].tenantId == tenantId && rows[id].fileId == fileId
  }

  /** The query returns as many rows as there are requested ids exactly when no id is repeated and
      every id is the tenant's. */
  lemma LengthsMatchExactlyWhen(rows: Rows, tenantId: string, fileIds: seq<string>)
    requires UniqueFileIds(rows)
    ensures |Targets(rows, tenantId, SetOf(fileIds))| == |fileIds| <==>
      NoDuplicates(fileIds) && forall f | f in fileIds :: Owns(rows, tenantId, f)
  {
    var wanted := SetOf(fileIds);
    var targets := Targets(rows, tenantId, wanted);
    var found := FileIds(rows, targets);
    UniqueIdsKeepSize(rows, targets);
    SubsetOfSameSize(found, wanted);
    SetOfSize(fileIds);
    if found == wanted {
      forall f | f in fileIds ensures Owns(rows, tenantId, f) {
        assert f in found;
        var id :| id in targets && rows[id].fileId == f;
      }
    }
    if forall f | f in fileIds :: Owns(rows, tenantId, f) {
      forall f | f in wanted ensures f in found {
        assert Owns(rows, tenantId, f);
        var id :| id in rows && rows[id].tenantId == tenantId && rows[id].fileId == f;
        assert id in targets;
      }
      assert found == wanted;
    }
  }

  /** The descriptions findFileReferences gives, one per referencing table. */
  predicate Describes(found: References, text: string) {
    || (text == "receipt (linked to financial entry)" && found.receipt.Some? && found.receipt.value)
    || (text == "receipt (unlinked)" && found.receipt.Some? && !found.receipt.value)
    || (text == "project document" && found.projectDocument)
    || (text == "project photo" && found.projectPhoto)
    || (text == "project log attachment" && found.projectLogAttachment)
    || (text == "subcontractor document" && found.subcontractorDocument)
    || (text == "vendor signature" && found.vendorSignature)
    || (text == "subcontractor invoice" && found.subcontractorInvoice)
  }

  /** The clock has moved on to `now`. */
  function At(s: Sys, now: int): Sys {
    s.(now := now)
  }

  ghost predicate Reached(s: Sys) {
    exists start, steps :: Quiet(start) && s == Run(start, steps)
  }

  /** A reachable state with nothing in progress and nothing left behind. */
  ghost predicate AtRest(s: Sys) {
    s.jobs == map[] && s.leaked == {} && s.damaged == {} && Reached(s)
  }

  lemma ReachedOn(s: Sys, now: int, steps: seq<Step>)
    requires Reached(s) && s.now <= now
    ensures Reached(Run(At(s, now), steps))
  {
    var start, before :| Quiet(start) && s == Run(start, before);
    RunJoin(start, before, [Tick(now - s.now)] + steps);
    RunCons(s, Tick(now - s.now), steps);
  }

  lemma ReachedAgrees(s: Sys)
    requires Reached(s)
    ensures Agree(s) && s.rows.Keys <= s.used
  {
    var start, before :| Quiet(start) && s == Run(start, before);
    QuietAgrees(start);
    RunAgrees(start, before);
    RunNamesOk(start, before);
  }

  lemma RunKeeps(s: Sys, now: int, steps: seq<Step>)
    requires AtRest(s) && s.now <= now
    requires Run(At(s, now), steps).jobs == map[]
    requires Run(At(s, now), steps).leaked == {} && Run(At(s, now), steps).damaged == {}
    ensures AtRest(Run(At(s, now), steps))
  {
    ReachedOn(s, now, steps);
  }

  /** Nothing but rows and blobs differs. */
  predicate SameTables(s: Sys, t: Sys) {
    t.quotes == s.quotes && t.references == s.references
  }

  lemma UploadKeeps(s: Sys, now: int, id: string, row: FileRow)
    requires AtRest(s) && s.now <= now && IsNewRow(row, now)
    requires id !in s.used && Blobs(row) !! s.owner.Keys && row.thumbnailPath != Some(row.storagePath)
    ensures var t := Run(At(s, now), UploadSteps(0, id, row));
      AtRest(t) && SameTables(s, t) && t.rows == s.rows[id := row] && t.disk == s.disk + Blobs(row)
  {
    UploadRun(At(s, now), 0, id, row);
    RunKeeps(s, now, UploadSteps(0, id, row));
  }

  /** What a deletion without references comes to. */
  lemma DeleteKeeps(s: Sys, tenantId: string, fileIds: seq<string>)
    requires AtRest(s) && DeleteAllowed(s, tenantId, fileIds)
    ensures var ids, t := Targets(s.rows, tenantId, SetOf(fileIds)), Run(s, DeleteSteps(s, 0, tenantId, fileIds));
      && AtRest(t) && !Refused(s.rows, s.references, ids)
      && t.rows == s.rows - ids && t.disk == s.disk - BlobsOf(Restrict(s.rows, ids))
      && t.quotes == DropLinks(s.quotes, ids) && t.references == s.references
      && DropInvoices(s.references, FileIds(s.rows, ids)) == s.references
  {
    var ids := Targets(s.rows, tenantId, SetOf(fileIds));
    DeleteRun(s, 0, tenantId, fileIds);
    NoInvoices(s.references, FileIds(s.rows, ids));
    assert At(s, s.now) == s;
    RunKeeps(s, s.now, DeleteSteps(s, 0, tenantId, fileIds));
  }

  /** An unreferenced file has no invoice to be set to null. */
  lemma NoInvoices(references: map<string, References>, fileIds: set<string>)
    requires forall f | f in fileIds :: !Referenced(references, f)
    ensures DropInvoices(references, fileIds) == references
  {
  }

  lemma TrashKeeps(s: Sys, now: int, tenantId: string)
    requires AtRest(s) && s.now <= now
    ensures var t := Run(At(s, now), TrashSteps(0, tenantId));
      && AtRest(t) && t.disk == s.disk && SameTables(s, t)
      && t.rows == MarkTrashed(s.rows, TrashCandidates(s.rows, tenantId, now), now)
  {
    TrashRun(At(s, now), 0, tenantId);
    RunKeeps(s, now, TrashSteps(0, tenantId));
  }

  lemma OrphansKeep(s: Sys, now: int, tenantId: string)
    requires AtRest(s) && s.now <= now
    ensures var t := Run(At(s, now), OrphanSteps(0, tenantId));
      && AtRest(t) && t.disk == s.disk && SameTables(s, t)
      && t.rows == MarkOrphans(s.rows, ToMark(At(s, now), tenantId), now)
  {
    OrphanRun(At(s, now), 0, tenantId);
    RunKeeps(s, now, OrphanSteps(0, tenantId));
  }

  lemma CleanupKeeps(s: Sys, now: int, tenantId: string)
    requires AtRest(s) && s.now <= now
    ensures var t := Run(At(s, now), CleanupSteps(At(s, now), 0, tenantId));
      AtRest(t) && t == Purged(At(s, now), PurgeCandidates(s.rows, tenantId, now))
  {
    CleanupRun(At(s, now), 0, tenantId);
    RunKeeps(s, now, CleanupSteps(At(s, now), 0, tenantId));
  }

  /** What a purge does to the tables and the disk. */
  lemma PurgedTables(s: Sys, ids: set<string>)
    requires ids <= s.rows.Keys
    ensures var t, refused := Purged(s, ids), Refused(s.rows, s.references, ids);
      && t.disk == s.disk - BlobsOf(Restrict(s.rows, ids))
      && t.rows == (if refused then s.rows else s.rows - ids) && (UniqueFileIds(s.rows) ==> UniqueFileIds(t.rows))
      && t.quotes == (if refused then s.quotes else DropLinks(s.quotes, ids))
      && t.references == if refused then s.references else DropInvoices(s.references, FileIds(s.rows, ids))
  {
  }

  lemma AdminKeeps(s: Sys, now: int, id: string)
    requires AtRest(s) && s.now <= now && id in s.rows && !s.rows[id].isTrashed
    ensures var t := Run(At(s, now), AdminSteps(0, id, s.rows[id]));
      && AtRest(t) && SameTables(s, t) && t.disk == s.disk - Blobs(s.rows[id])
      && t.rows == MarkTrashed(s.rows, {id}, now)
  {
    AdminRun(At(s, now), 0, id);
    RunKeeps(s, now, AdminSteps(0, id, s.rows[id]));
  }

  // What the operations are specified by, in terms of the columns alone

  /** Some table refers to the file and does not let it go. */
  ghost predicate IsHeld(references: map<string, References>, fileId: string) {
    && fileId in references
    && var found := references[fileId];
       || found.receipt.Some? || found.projectDocument || found.projectPhoto || found.projectLogAttachment
       || found.subcontractorDocument || found.vendorSignature
  }

  /** Some table refers to the file, the invoices, which let it go, included. */
  ghost predicate IsUsed(references: map<string, References>, fileId: string) {
    IsHeld(references, fileId) || (fileId in references && references[fileId].subcontractorInvoice)
  }

  /** The row's main file and thumbnail were written, and nothing else. */
  ghost predicate Stores(disk: set<string>, disk': set<string>, row: FileRow) {
    forall p :: p in disk' <==> p in disk || p == row.storagePath || row.thumbnailPath == Some(p)
  }

  /** The main files and thumbnails of these rows were unlinked, and nothing else. */
  ghost predicate Unstores(disk: set<string>, disk': set<string>, rows: Rows, ids: set<string>) {
    forall p :: p in disk' <==>
      p in disk && forall id | id in ids && id in rows :: p != rows[id].storagePath && rows[id].thumbnailPath != Some(p)
  }

  /** Quotes whose latest PDF is one of these rows have none now, and nothing else changed. */
  ghost predicate Unlinks(quotes: Quotes, quotes': Quotes, ids: set<string>) {
    && quotes'.Keys == quotes.Keys
    && forall q | q in quotes ::
         var pdf := quotes[q].latestPdfFileId;
         quotes'[q] == if pdf.Some? && pdf.value in ids then Quote(quotes[q].tenantId, None) else quotes[q]
  }

  /** The invoices of these files have no file now, and no other reference changed. */
  ghost predicate Unbills(references: map<string, References>, references': map<string, References>,
                          fileIds: set<string>) {
    && references'.Keys == references.Keys
    && forall f | f in references :: references'[f] ==
         if f in fileIds then references[f].(subcontractorInvoice := false) else references[f]
  }

  lemma InvoicesDropped(references: map<string, References>, fileIds: set<string>)
    ensures Unbills(references, DropInvoices(references, fileIds), fileIds)
  {
  }

  /** In the trash for thirty days. */
  ghost predicate IsDue(row: FileRow, tenantId: string, now: int) {
    row.tenantId == tenantId && row.isTrashed && row.trashedAt.Some? && row.trashedAt.value <= now - 30 * DAY
  }

  /** Some file due is held by a table that does not let it go. */
  ghost predicate DueIsHeld(rows: Rows, references: map<string, References>, tenantId: string, now: int) {
    exists id :: id in rows && IsDue(rows[id], tenantId, now) && IsHeld(references, rows[id].fileId)
  }

  lemma DueMeaning(rows: Rows, references: map<string, References>, tenantId: string, now: int)
    ensures
      var due := PurgeCandidates(rows, tenantId, now);
      && due == (set id | id in rows && IsDue(rows[id], tenantId, now))
      && FileIds(rows, due) == (set id | id in due :: rows[id].fileId)
      && (Refused(rows, references, due) <==> DueIsHeld(rows, references, tenantId, now))
  {
    var due := PurgeCandidates(rows, tenantId, now);
    if id :| id in rows && IsDue(rows[id], tenantId, now) && IsHeld(references, rows[id].fileId) {
      assert id in due && references[rows[id].fileId].Restricts();
    }
    if Refused(rows, references, due) {
      var id :| id in due && rows[id].fileId in references && references[rows[id].fileId].Restricts();
      assert IsDue(rows[id], tenantId, now) && IsHeld(references, rows[id].fileId);
    }
  }

  lemma OneUnstored(disk: set<string>, rows: Rows, id: string)
    requires id in rows
    ensures Unstores(disk, disk - Blobs(rows[id]), rows, {id})
  {
  }

  lemma PurgeMeaning(disk: set<string>, rows: Rows, quotes: Quotes, ids: set<string>)
    ensures Unstores(disk, disk - BlobsOf(Restrict(rows, ids)), rows, ids)
    ensures Unlinks(quotes, DropLinks(quotes, ids), ids)
  {
    var victims := Restrict(rows, ids);
    forall p ensures p in BlobsOf(victims) <==>
      exists id :: id in ids && id in rows && (p == rows[id].storagePath || rows[id].thumbnailPath == Some(p))
    {
      if id :| id in ids && id in rows && (p == rows[id].storagePath || rows[id].thumbnailPath == Some(p)) {
        assert id in victims && p in Blobs(victims[id]);
      }
    }
  }

  lemma StillUnique(rows: Rows, id: string, row: FileRow)
    requires UniqueFileIds(rows) && forall i | i in rows && i != id :: rows[i].fileId != row.fileId
    ensures UniqueFileIds(rows[id := row])
  {
  }

  lemma ThumbnailFirst(disk: set<string>, row: FileRow)
    ensures
      var disk' := (if row.thumbnailPath.Some? then disk + {row.thumbnailPath.value} else disk) + {row.storagePath};
      disk' == disk + Blobs(row) && Stores(disk, disk', row)
  {
  }

  /** The rows two tables of the same ids differ in. */
  function Changed(rows: Rows, rows': Rows): set<string>
    requires rows.Keys == rows'.Keys
  {
    set id | id in rows && rows'[id] != rows[id]
  }

  /** Flagging rows changes exactly those that were not flagged. */
  lemma MarksChange(rows: Rows, ids: set<string>, now: int)
    requires forall id | id in ids :: id in rows && !rows[id].isOrphan
    ensures Changed(rows, MarkOrphans(rows, ids, now)) == ids && (ids == {} ==> MarkOrphans(rows, ids, now) == rows)
    ensures UniqueFileIds(rows) ==> UniqueFileIds(MarkOrphans(rows, ids, now))
  {
    var rows' := MarkOrphans(rows, ids, now);
    forall id | id in ids ensures rows'[id] != rows[id] { assert rows'[id].isOrphan; }
  }

  /** Trashing rows changes exactly those that were not trashed. */
  lemma TrashChanges(rows: Rows, ids: set<string>, now: int)
    requires forall id | id in ids :: id in rows && !rows[id].isTrashed
    ensures Changed(rows, MarkTrashed(rows, ids, now)) == ids && (ids == {} ==> MarkTrashed(rows, ids, now) == rows)
    ensures UniqueFileIds(rows) ==> UniqueFileIds(MarkTrashed(rows, ids, now))
  {
    var rows' := MarkTrashed(rows, ids, now);
    forall id | id in ids ensures rows'[id] != rows[id] { assert rows'[id].isTrashed; }
  }

  lemma TrashesOne(rows: Rows, id: string, now: int)
    requires id in rows
    ensures MarkTrashed(rows, {id}, now) == rows[id := rows[id].(isTrashed := true, trashedAt := Some(now))]
  {
  }

  class Files {
    var rows: Rows
    var disk: set<string>
    var quotes: Quotes
    var references: map<string, References>
    ghost var run: Sys

    /** The fields are those of a reachable state with nothing in progress and nothing left behind, and
        file_id is unique. */
    ghost predicate Valid()
      reads this
    {
      && run.rows == rows && run.disk == disk && run.quotes == quotes && run.references == references
      && AtRest(run) && UniqueFileIds(rows)
    }

    constructor (now: int)
      ensures Valid() && rows == map[] && quotes == map[] && references == map[] && run.now == now
    {
      rows, disk, quotes, references := map[], {}, map[], map[];
      run := Sys(map[], {}, map[], map[], now, map[], {}, map[], {}, {}, {}, {});
      new;
      assert Quiet(run) && run == Run(run, []);
    }

    /** The disk holds exactly the blobs of the rows that no administrator trashed and whose deletion was
        never refused. */
    lemma DiskIsTheTable()
      requires Valid()
      ensures disk == BlobsOf(rows - run.adminTrashed - run.refused)
    {
      ReachedAgrees(run);
      SettledAgreement(run);
    }

    /** The database's aggregate: sizes of the tenant's rows that are not trashed. */
    method SumSizes(tenantId: string) returns (total: nat)
      ensures total == Usage(rows, tenantId)
    {
      total := 0;
      var left := Active(rows);
      assert Sizes(left, tenantId) == Sizes(rows, tenantId);
      while left != map[]
        invariant forall id | id in left :: !left[id].isTrashed
        invariant total + Usage(left, tenantId) == Usage(rows, tenantId)
        decreases |left|
      {
        var id :| id in left;
        var row := left[id];
        var rest := left - {id};
        Smaller(left, id);
        assert left == rest[id := row];
        UsageAdd(rest, id, row, tenantId);
        if row.tenantId == tenantId {
          total := total + row.sizeBytes;
        }
        left := rest;
      }
      assert Sizes(left, tenantId) == map[];
    }

    method CheckStorageQuota(tenantId: string, limit: Quota.PlanLimit, newFileSizeBytes: nat) returns (allowed: bool)
      ensures allowed <==> limit.None? || (Usage(rows, tenantId) + newFileSizeBytes) as real <= limit.value
    {
      if limit.None? {
        return true;
      }
      var currentBytes := SumSizes(tenantId);
      return !((currentBytes + newFileSizeBytes) as real > limit.value);
    }

    /** The writes of an upload: thumbnail, main blob, row. The ids and the paths are fresh. */
    method StoreFile(id: string, row: FileRow, now: int)
      requires Valid() && run.now <= now && IsNewRow(row, now)
      requires id !in run.used && Blobs(row) !! run.owner.Keys && row.thumbnailPath != Some(row.storagePath)
      requires forall i | i in rows :: rows[i].fileId != row.fileId
      modifies this`disk, this`rows, this`run
      ensures Valid() && run == Run(At(old(run), now), UploadSteps(0, id, row))
      ensures rows == old(rows)[id := row] && Stores(old(disk), disk, row)
    {
      UploadKeeps(run, now, id, row);
      run := Run(At(run, now), UploadSteps(0, id, row));
      StillUnique(rows, id, row);
      ThumbnailFirst(disk, row);
      if row.thumbnailPath.Some? {
        disk := disk + {row.thumbnailPath.value};
      }
      disk := disk + {row.storagePath};
      rows := rows[id := row];
    }

    /** `storedSize` is what image processing left of the file; the quota is checked on `size`. */
    method UploadFile(id: string, fileId: string, tenantId: string, limit: Quota.PlanLimit, category: Quota.Category,
                      typeAllowed: bool, size: nat, storedSize: nat, entityId: Option<string>,
                      storagePath: string, thumbnailPath: Option<string>, now: int)
      returns (r: Result<FileRow, FileError>)
      requires Valid() && run.now <= now && id !in run.used && thumbnailPath != Some(storagePath)
      requires storagePath !in run.owner && (thumbnailPath.Some? ==> thumbnailPath.value !in run.owner)
      requires forall i | i in rows :: rows[i].fileId != fileId
      modifies this`disk, this`rows, this`run
      ensures Valid()
      ensures r == Err(InvalidType) <==> !typeAllowed
      ensures r == Err(TooLarge) <==> typeAllowed && size > Quota.MaxSize(category)
      ensures r == Err(QuotaExceeded) <==>
        typeAllowed && size <= Quota.MaxSize(category) && !Quota.QuotaAllows(limit, Usage(old(rows), tenantId), size)
      ensures r.Err? ==> (r.error.InvalidType? || r.error.TooLarge? || r.error.QuotaExceeded?)
      ensures r.Err? ==> rows == old(rows) && disk == old(disk) && run == old(run)
      ensures r.Ok? ==>
        && r.value.fileId == fileId && r.value.tenantId == tenantId && r.value.sizeBytes == storedSize
        && r.value.entityId == entityId && (r.value.isOrphan <==> entityId.None?) && r.value.orphanedAt.None?
        && !r.value.isTrashed && r.value.trashedAt.None? && r.value.createdAt == now
        && r.value.storagePath == storagePath && r.value.thumbnailPath == thumbnailPath
        && run == Run(At(old(run), now), UploadSteps(0, id, r.value))
        && rows == old(rows)[id := r.value]
        && Stores(old(disk), disk, r.value)
        && Usage(rows, tenantId) == Usage(old(rows), tenantId) + storedSize
    {
      if !typeAllowed {
        return Err(InvalidType);
      }
      if size > Quota.MaxSize(category) {
        return Err(TooLarge);
      }
      var allowed := CheckStorageQuota(tenantId, limit, size);
      if !allowed {
        return Err(QuotaExceeded);
      }
      var row := NewRow(fileId, tenantId, storedSize, entityId, storagePath, thumbnailPath, now);
      ReachedAgrees(run);
      UsageAdd(rows, id, row, tenantId);
      StoreFile(id, row, now);
      return Ok(row);
    }

    /** One more table looked up. */
    static method Look(refs: seq<string>, used: bool, text: string) returns (more: seq<string>)
      ensures forall t :: t in more <==> t in refs || (used && t == text)
      ensures |more| > 0 <==> |refs| > 0 || used
    {
      more := if used then refs + [text] else refs;
    }

    /** Human-readable descriptions of whatever uses the file. */
    method FindFileReferences(fileId: string) returns (refs: seq<string>)
      ensures forall text :: text in refs <==> fileId in references && Describes(references[fileId], text)
      ensures |refs| > 0 <==> Referenced(references, fileId)
      ensures |refs| > 0 <==> IsUsed(references, fileId)
    {
      refs := [];
      if fileId !in references {
        return;
      }
      var found := references[fileId];
      refs := Look(refs, found.receipt.Some? && found.receipt.value, "receipt (linked to financial entry)");
      refs := Look(refs, found.receipt.Some? && !found.receipt.value, "receipt (unlinked)");
      refs := Look(refs, found.projectDocument, "project document");
      refs := Look(refs, found.projectPhoto, "project photo");
      refs := Look(refs, found.projectLogAttachment, "project log attachment");
      refs := Look(refs, found.subcontractorDocument, "subcontractor document");
      refs := Look(refs, found.vendorSignature, "vendor signature");
      refs := Look(refs, found.subcontractorInvoice, "subcontractor invoice");
    }

    /** Removes blobs first, then the rows; the database refuses the second step if a victim is held. */
    method RemoveRows(ids: set<string>) returns (ok: bool)
      requires ids <= rows.Keys
      modifies this`rows, this`disk, this`quotes, this`references
      ensures ok <==> !Refused(old(rows), old(references), ids)
      ensures disk == old(disk) - BlobsOf(Restrict(old(rows), ids))
      ensures !ok ==> rows == old(rows) && quotes == old(quotes) && references == old(references)
      ensures ok ==>
        && rows == old(rows) - ids && quotes == DropLinks(old(quotes), ids)
        && references == DropInvoices(old(references), FileIds(old(rows), ids))
    {
      disk := disk - BlobsOf(Restrict(rows, ids));
      if Refused(rows, references, ids) {
        return false;
      }
      quotes := DropLinks(quotes, ids);
      references := DropInvoices(references, FileIds(rows, ids));
      rows := rows - ids;
      return true;
    }

    /** The part of delete and bulkDelete behind their checks. */
    method Remove(tenantId: string, fileIds: seq<string>) returns (ok: bool)
      requires Valid() && DeleteAllowed(run, tenantId, fileIds)
      modifies this
      ensures Valid() && ok && run == Run(old(run), DeleteSteps(old(run), 0, tenantId, fileIds))
      ensures references == old(references)
      ensures
        var ids := Targets(old(rows), tenantId, SetOf(fileIds));
        && rows == old(rows) - ids
        && Unstores(old(disk), disk, old(rows), ids) && Unlinks(old(quotes), quotes, ids)
    {
      DeleteKeeps(run, tenantId, fileIds);
      PurgeMeaning(disk, rows, quotes, Targets(rows, tenantId, SetOf(fileIds)));
      ok := RemoveRows(Targets(rows, tenantId, SetOf(fileIds)));
      run := Run(run, DeleteSteps(run, 0, tenantId, fileIds));
    }

    method Delete(tenantId: string, fileId: string) returns (r: Result<string, FileError>)
      requires Valid()
      modifies this
      ensures Valid() && references == old(references)
      ensures r.Ok? <==> Owns(old(rows), tenantId, fileId) && !IsUsed(references, fileId)
      ensures r.Err? ==> rows == old(rows) && disk == old(disk) && quotes == old(quotes) && run == old(run)
      ensures r.Ok? ==>
        && r.value in old(rows) && old(rows)[r.value].fileId == fileId && old(rows)[r.value].tenantId == tenantId
        && rows == old(rows) - {r.value}
        && Unstores(old(disk), disk, old(rows), {r.value}) && Unlinks(old(quotes), quotes, {r.value})
        && run == Run(old(run), DeleteSteps(old(run), 0, tenantId, [fileId]))
    {
      if id :| id in rows && rows[id].fileId == fileId && rows[id].tenantId == tenantId {
        var refs := FindFileReferences(fileId);
        if |refs| > 0 {
          return Err(InUse);
        }
        OneTarget(rows, tenantId, fileId, id);
        var _ := Remove(tenantId, [fileId]);
        return Ok(id);
      }
      return Err(NotFound);
    }

    /** The references of all the files, file by file. */
    method AnyReferenced(files: set<string>) returns (blockedFiles: seq<string>)
      requires files <= rows.Keys
      ensures |blockedFiles| > 0 <==> exists id :: id in files && Referenced(references, rows[id].fileId)
    {
      blockedFiles := [];
      var left := files;
      while left != {}
        invariant left <= files
        invariant |blockedFiles| > 0 <==> exists id :: id in files - left && Referenced(references, rows[id].fileId)
        modifies {}
        decreases left
      {
        var id :| id in left;
        var refs := FindFileReferences(rows[id].fileId);
        if |refs| > 0 {
          blockedFiles := blockedFiles + [id];
          assert id in files - (left - {id});
        }
        left := left - {id};
      }
      assert files - left == files;
    }

    /** All or nothing: the request goes through exactly when it repeats no id, every id is the
        tenant's and none is referenced; then exactly those rows and their blobs go. */
    method BulkDelete(tenantId: string, fileIds: seq<string>) returns (r: Result<nat, FileError>)
      requires Valid()
      modifies this
      ensures Valid() && references == old(references)
      ensures r.Ok? <==>
        && NoDuplicates(fileIds)
        && (forall f | f in fileIds :: Owns(old(rows), tenantId, f) && !Referenced(references, f))
      ensures r.Err? ==> rows == old(rows) && disk == old(disk) && quotes == old(quotes) && run == old(run)
      ensures r.Ok? ==>
        && r.value == |fileIds|
        && (forall id :: id in rows <==> id in old(rows) && old(rows)[id].fileId !in fileIds)
        && (forall id | id in rows :: rows[id] == old(rows)[id])
        && Unstores(old(disk), disk, old(rows), old(rows).Keys - rows.Keys)
        && Unlinks(old(quotes), quotes, old(rows).Keys - rows.Keys)
        && run == Run(old(run), DeleteSteps(old(run), 0, tenantId, fileIds))
    {
      var files := Targets(rows, tenantId, SetOf(fileIds));
      LengthsMatchExactlyWhen(rows, tenantId, fileIds);
      if |files| != |fileIds| {
        return Err(NotFound);
      }
      AllTargeted(rows, tenantId, fileIds);
      var blockedFiles := AnyReferenced(files);
      if |blockedFiles| > 0 {
        var id :| id in files && Referenced(references, rows[id].fileId);
        assert rows[id].fileId in fileIds;
        return Err(InUse);
      }
      var _ := Remove(tenantId, fileIds);
      assert old(rows).Keys - rows.Keys == files;
      return Ok(|files|);
    }

    /** Reports the old, unattached, unlinked files, and marks those that no one marked before. */
    method FindOrphans(tenantId: string, now: int) returns (orphans: set<string>, marked: nat)
      requires Valid() && run.now <= now
      modifies this
      ensures Valid() && disk == old(disk) && quotes == old(quotes) && references == old(references)
      ensures run == Run(At(old(run), now), OrphanSteps(0, tenantId))
      ensures rows.Keys == old(rows.Keys)
      ensures forall id :: id in orphans <==>
        && id in old(rows) && old(rows)[id].tenantId == tenantId && old(rows)[id].entityId.None?
        && !old(rows)[id].isTrashed && old(rows)[id].createdAt <= now - 30 * DAY
        && !exists q :: q in quotes && quotes[q].tenantId == tenantId && quotes[q].latestPdfFileId == Some(id)
      ensures forall id | id in rows ::
        rows[id] == (if id in orphans && !old(rows)[id].isOrphan
                     then old(rows)[id].(isOrphan := true, orphanedAt := Some(now)) else old(rows)[id])
      ensures marked == |Changed(old(rows), rows)|
    {
      OrphansKeep(run, now, tenantId);
      run := Run(At(run, now), OrphanSteps(0, tenantId));
      var linkedPdfFileIds := LinkedPdfFileIds(quotes, tenantId);
      orphans := OrphanCandidates(rows, tenantId, linkedPdfFileIds, now);
      var orphanIds := Unmarked(rows, orphans);
      MarksChange(rows, orphanIds, now);
      if orphanIds != {} {
        rows := MarkOrphans(rows, orphanIds, now);
      }
      marked := |orphanIds|;
    }

    /** Trashes what has been marked for thirty days; a row that is already trashed keeps its date. */
    method MoveOrphansToTrash(tenantId: string, now: int) returns (count: nat)
      requires Valid() && run.now <= now
      modifies this
      ensures Valid() && disk == old(disk) && quotes == old(quotes) && references == old(references)
      ensures run == Run(At(old(run), now), TrashSteps(0, tenantId))
      ensures rows.Keys == old(rows.Keys)
      ensures forall id | id in rows ::
        rows[id] == (if && old(rows)[id].tenantId == tenantId && old(rows)[id].isOrphan && !old(rows)[id].isTrashed
                        && old(rows)[id].orphanedAt.Some? && old(rows)[id].orphanedAt.value <= now - 30 * DAY
                     then old(rows)[id].(isTrashed := true, trashedAt := Some(now)) else old(rows)[id])
      ensures count == |Changed(old(rows), rows)|
    {
      TrashKeeps(run, now, tenantId);
      run := Run(At(run, now), TrashSteps(0, tenantId));
      var orphansToTrash := TrashCandidates(rows, tenantId, now);
      TrashChanges(rows, orphansToTrash, now);
      if orphansToTrash != {} {
        rows := MarkTrashed(rows, orphansToTrash, now);
      }
      count := |orphansToTrash|;
    }

    /** The part of cleanupTrashedFiles behind its query. */
    method Purge(tenantId: string, ids: set<string>, now: int) returns (ok: bool)
      requires Valid() && run.now <= now && ids == PurgeCandidates(rows, tenantId, now)
      modifies this
      ensures Valid() && run == Run(At(old(run), now), CleanupSteps(At(old(run), now), 0, tenantId))
      ensures ok <==> !Refused(old(rows), old(references), ids)
      ensures Unstores(old(disk), disk, old(rows), ids)
      ensures rows == (if ok then old(rows) - ids else old(rows))
      ensures !ok ==> quotes == old(quotes) && references == old(references)
      ensures ok ==>
        Unlinks(old(quotes), quotes, ids) && Unbills(old(references), references, FileIds(old(rows), ids))
    {
      CleanupKeeps(run, now, tenantId);
      PurgeMeaning(disk, rows, quotes, ids);
      InvoicesDropped(references, FileIds(rows, ids));
      PurgedTables(At(run, now), ids);
      run := Run(At(run, now), CleanupSteps(At(run, now), 0, tenantId));
      ok := RemoveRows(ids);
    }

    /** Unlinks the blobs of exactly what has been in the trash for thirty days, then removes those rows,
        unless the database refuses because a table still holds one of them: then all of them stay. */
    method CleanupTrashedFiles(tenantId: string, now: int) returns (r: Result<nat, FileError>)
      requires Valid() && run.now <= now
      modifies this
      ensures Valid()
      ensures run == Run(At(old(run), now), CleanupSteps(At(old(run), now), 0, tenantId))
      ensures r.Err? <==> DueIsHeld(old(rows), old(references), tenantId, now)
      ensures r.Err? ==> rows == old(rows) && quotes == old(quotes) && references == old(references)
      ensures r.Ok? ==> forall id :: id in rows <==> id in old(rows) && !IsDue(old(rows)[id], tenantId, now)
      ensures forall id | id in rows :: rows[id] == old(rows)[id]
      ensures
        var due := set id | id in old(rows) && IsDue(old(rows)[id], tenantId, now);
        && Unstores(old(disk), disk, old(rows), due)
        && (r.Ok? ==>
              && r.value == |due|
              && Unlinks(old(quotes), quotes, due)
              && Unbills(old(references), references, set id | id in due :: old(rows)[id].fileId))
    {
      var trashedFiles := PurgeCandidates(rows, tenantId, now);
      DueMeaning(rows, references, tenantId, now);
      if trashedFiles == {} {
        CleanupKeeps(run, now, tenantId);
        PurgeMeaning(disk, rows, quotes, trashedFiles);
        InvoicesDropped(references, FileIds(rows, trashedFiles));
        NothingDue(At(run, now));
        run := Run(At(run, now), CleanupSteps(At(run, now), 0, tenantId));
        return Ok(0);
      }
      var ok := Purge(tenantId, trashedFiles, now);
      return if ok then Ok(|trashedFiles|) else Err(ForeignKeyRestricts);
    }

    /** Unlinks the blobs at once but only flags the row, so the row outlives its blobs. */
    method DeleteFileForAdmin(id: string, now: int) returns (r: Result<(), FileError>)
      requires Valid() && run.now <= now
      modifies this
      ensures Valid() && quotes == old(quotes) && references == old(references)
      ensures r.Ok? <==> id in old(rows) && !old(rows)[id].isTrashed
      ensures r.Err? ==> rows == old(rows) && disk == old(disk) && run == old(run)
      ensures r.Ok? ==>
        && run == Run(At(old(run), now), AdminSteps(0, id, old(rows)[id]))
        && rows == old(rows)[id := old(rows)[id].(isTrashed := true, trashedAt := Some(now))]
        && Unstores(old(disk), disk, old(rows), {id})
    {
      if id !in rows {
        return Err(NotFound);
      }
      if rows[id].isTrashed {
        return Err(AlreadyDeleted);
      }
      AdminKeeps(run, now, id);
      TrashesOne(rows, id, now);
      OneUnstored(disk, rows, id);
      StillUnique(rows, id, rows[id].(isTrashed := true, trashedAt := Some(now)));
      run := Run(At(run, now), AdminSteps(0, id, rows[id]));
      disk := disk - Blobs(rows[id]);
      rows := rows[id := rows[id].(isTrashed := true, trashedAt := Some(now))];
      return Ok(());
    }
  }

  lemma OneTarget(rows: Rows, tenantId: string, fileId: string, id: string)
    requires UniqueFileIds(rows) && id in rows && rows[id].fileId == fileId && rows[id].tenantId == tenantId
    ensures Targets(rows, tenantId, SetOf([fileId])) == {id}
  {
  }

  lemma NothingDue(s: Sys)
    ensures Purged(s, {}) == s
  {
    assert BlobsOf(Restrict(s.rows, {})) == {};
    assert s.rows - {} == s.rows;
    assert FileIds(s.rows, {}) == {};
    assert DropLinks(s.quotes, {}) == s.quotes && DropInvoices(s.references, {}) == s.references;
    assert s.disk - {} == s.disk;
  }

  /** Once the lengths match, the rows with the requested ids are the tenant's. */
  lemma AllTargeted(rows: Rows, tenantId: string, fileIds: seq<string>)
    requires UniqueFileIds(rows) && forall f | f in fileIds :: Owns(rows, tenantId, f)
    ensures forall id | id in rows && rows[id].fileId in fileIds :: id in Targets(rows, tenantId, SetOf(fileIds))
    ensures forall f | f in fileIds ::
      exists id :: id in Targets(rows, tenantId, SetOf(fileIds)) && rows[id].fileId == f
  {
    forall id | id in rows && rows[id].fileId in fileIds ensures id in Targets(rows, tenantId, SetOf(fileIds)) {
      assert Owns(rows, tenantId, rows[id].fileId);
    }
    forall f | f in fileIds ensures exists id :: id in Targets(rows, tenantId, SetOf(fileIds)) && rows[id].fileId == f {
      assert Owns(rows, tenantId, f);
      var id :| id in rows && rows[id].tenantId == tenantId && rows[id].fileId == f;
      assert id in Targets(rows, tenantId, SetOf(fileIds));
    }
  }
}
