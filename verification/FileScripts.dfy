/** Whole operations as runs: the segments of one operation with nothing in between, and what they
    come to. */
module FileScripts {
  import opened Wrappers
  import opened FileModel
  import opened FileRuns

  lemma RunCons(s: Sys, step: Step, rest: seq<Step>)
    ensures Run(s, [step] + rest) == Run(Next(s, step), rest)
  {
    assert ([step] + rest)[0] == step && ([step] + rest)[1..] == rest;
  }

  lemma {:induction false} RunJoin(s: Sys, a: seq<Step>, b: seq<Step>)
    ensures Run(s, a + b) == Run(Run(s, a), b)
    decreases |a|
  {
    if a == [] {
      assert a + b == b;
    } else {
      assert (a + b)[0] == a[0] && (a + b)[1..] == a[1..] + b;
      RunJoin(Next(s, a[0]), a[1..], b);
    }
  }

  lemma RunOne(s: Sys, step: Step)
    ensures Run(s, [step]) == Next(s, step)
  {
    assert [step] == [step] + [];
    RunCons(s, step, []);
  }

  /** First a step, then some steps, then a last one. */
  lemma RunAround(s: Sys, first: Step, middle: seq<Step>, last: Step)
    ensures Run(s, [first] + middle + [last]) == Next(Run(Next(s, first), middle), last)
  {
    assert [first] + middle + [last] == [first] + (middle + [last]);
    RunCons(s, first, middle + [last]);
    RunJoin(Next(s, first), middle, [last]);
    RunOne(Run(Next(s, first), middle), last);
  }

  // Unlinking and writing blobs one by one, in some order

  ghost function UnlinkAll(j: nat, blobs: set<string>): seq<Step>
    decreases |blobs|
  {
    if blobs == {} then []
    else
      var p :| p in blobs;
      [Unlink(j, p)] + UnlinkAll(j, blobs - {p})
  }

  /** The deletion has unlinked all it had to. */
  function Emptied(s: Sys, j: nat): Sys
    requires IsDeleting(s, j)
  {
    s.(disk := s.disk - s.jobs[j].blobs, jobs := s.jobs[j := s.jobs[j].(blobs := {})])
  }

  lemma UnlinkOne(s: Sys, j: nat, p: string)
    requires IsDeleting(s, j) && p in s.jobs[j].blobs
    ensures var s' := Next(s, Unlink(j, p));
      IsDeleting(s', j) && s'.jobs[j].blobs == s.jobs[j].blobs - {p} && Emptied(s', j) == Emptied(s, j)
  {
    var s' := Next(s, Unlink(j, p));
    assert s'.jobs[j := s'.jobs[j].(blobs := {})] == s.jobs[j := s.jobs[j].(blobs := {})];
    assert s'.disk - s'.jobs[j].blobs == s.disk - s.jobs[j].blobs;
  }

  lemma {:induction false} UnlinkAllRun(s: Sys, j: nat, blobs: set<string>)
    requires IsDeleting(s, j) && s.jobs[j].blobs == blobs
    ensures Run(s, UnlinkAll(j, blobs)) == Emptied(s, j)
    decreases |blobs|
  {
    if blobs == {} {
      assert s.jobs[j := s.jobs[j].(blobs := {})] == s.jobs;
    } else {
      var p :| p in blobs && UnlinkAll(j, blobs) == [Unlink(j, p)] + UnlinkAll(j, blobs - {p});
      RunCons(s, Unlink(j, p), UnlinkAll(j, blobs - {p}));
      UnlinkOne(s, j, p);
      UnlinkAllRun(Next(s, Unlink(j, p)), j, blobs - {p});
    }
  }

  /** A deletion from its first step to its last. */
  lemma UnlinkAround(s: Sys, start: Step, s1: Sys, j: nat, blobs: set<string>, last: Step)
    requires Next(s, start) == s1 && IsDeleting(s1, j) && s1.jobs[j].blobs == blobs
    ensures Run(s, [start] + UnlinkAll(j, blobs) + [last]) == Next(Emptied(s1, j), last)
  {
    RunAround(s, start, UnlinkAll(j, blobs), last);
    UnlinkAllRun(s1, j, blobs);
  }

  ghost function WriteAll(j: nat, blobs: set<string>): seq<Step>
    decreases |blobs|
  {
    if blobs == {} then []
    else
      var p :| p in blobs;
      [WriteBlob(j, p)] + WriteAll(j, blobs - {p})
  }

  /** The upload has written all its blobs. */
  function Filled(s: Sys, j: nat): Sys
    requires j in s.jobs && s.jobs[j].Upload?
  {
    s.(disk := s.disk + s.jobs[j].unwritten, jobs := s.jobs[j := s.jobs[j].(unwritten := {})])
  }

  lemma WriteOne(s: Sys, j: nat, p: string)
    requires j in s.jobs && s.jobs[j].Upload? && p in s.jobs[j].unwritten
    ensures var s' := Next(s, WriteBlob(j, p));
      && j in s'.jobs && s'.jobs[j].Upload? && s'.jobs[j].unwritten == s.jobs[j].unwritten - {p}
      && Filled(s', j) == Filled(s, j)
  {
    var s' := Next(s, WriteBlob(j, p));
    assert s'.jobs[j := s'.jobs[j].(unwritten := {})] == s.jobs[j := s.jobs[j].(unwritten := {})];
    assert s'.disk + s'.jobs[j].unwritten == s.disk + s.jobs[j].unwritten;
  }

  lemma {:induction false} WriteAllRun(s: Sys, j: nat, blobs: set<string>)
    requires j in s.jobs && s.jobs[j].Upload? && s.jobs[j].unwritten == blobs
    ensures Run(s, WriteAll(j, blobs)) == Filled(s, j)
    decreases |blobs|
  {
    if blobs == {} {
      assert s.jobs[j := s.jobs[j].(unwritten := {})] == s.jobs;
    } else {
      var p :| p in blobs && WriteAll(j, blobs) == [WriteBlob(j, p)] + WriteAll(j, blobs - {p});
      RunCons(s, WriteBlob(j, p), WriteAll(j, blobs - {p}));
      WriteOne(s, j, p);
      WriteAllRun(Next(s, WriteBlob(j, p)), j, blobs - {p});
    }
  }

  lemma Forgotten(jobs: map<nat, Job>, j: nat, job: Job)
    requires j !in jobs
    ensures Forget(jobs[j := job], j) == jobs
  {
  }

  // Uploads

  ghost function UploadSteps(j: nat, id: string, row: FileRow): seq<Step> {
    [StartUpload(j, id, row.fileId, row.tenantId, row.sizeBytes, row.entityId, row.storagePath, row.thumbnailPath)]
    + WriteAll(j, Blobs(row)) + [CreateRow(j)]
  }

  function Uploaded(s: Sys, id: string, row: FileRow): Sys {
    s.(rows := s.rows[id := row], disk := s.disk + Blobs(row), used := s.used + {id},
       owner := s.owner + map p | p in Blobs(row) :: id)
  }

  ghost predicate IsNewRow(row: FileRow, now: int) {
    row == NewRow(row.fileId, row.tenantId, row.sizeBytes, row.entityId, row.storagePath, row.thumbnailPath, now)
  }

  lemma UploadFilled(s: Sys, j: nat, id: string, row: FileRow)
    requires j !in s.jobs && id !in s.used && Blobs(row) * s.owner.Keys == {}
      && row.thumbnailPath != Some(row.storagePath)
    ensures var s1 := DoStartUpload(s, j, id, row);
      && j in s1.jobs && s1.jobs[j] == Upload(id, row, Blobs(row))
      && Filled(s1, j) == Uploaded(s, id, row).(rows := s.rows, jobs := s.jobs[j := Upload(id, row, {})])
  {
    var s1, job := DoStartUpload(s, j, id, row), Upload(id, row, {});
    assert s1.jobs[j := job] == s.jobs[j := job];
  }

  lemma RowCreated(s: Sys, j: nat, id: string, row: FileRow)
    requires j !in s.jobs && row.createdAt == s.now
    ensures DoCreateRow(s.(jobs := s.jobs[j := Upload(id, row, {})]), j) == s.(rows := s.rows[id := row])
  {
    Forgotten(s.jobs, j, Upload(id, row, {}));
  }

  lemma UploadRun(s: Sys, j: nat, id: string, row: FileRow)
    requires j !in s.jobs && id !in s.used && Blobs(row) * s.owner.Keys == {}
      && row.thumbnailPath != Some(row.storagePath)
    requires IsNewRow(row, s.now)
    ensures Run(s, UploadSteps(j, id, row)) == Uploaded(s, id, row)
  {
    var start := StartUpload(j, id, row.fileId, row.tenantId, row.sizeBytes, row.entityId, row.storagePath,
                             row.thumbnailPath);
    RunAround(s, start, WriteAll(j, Blobs(row)), CreateRow(j));
    UploadFilled(s, j, id, row);
    WriteAllRun(DoStartUpload(s, j, id, row), j, Blobs(row));
    RowCreated(Uploaded(s, id, row).(rows := s.rows), j, id, row);
  }

  // Deletions

  /** Blobs go first, then the rows, if the database lets them. */
  function Purged(s: Sys, ids: set<string>): Sys {
    DeleteRows(s.(disk := s.disk - BlobsOf(Restrict(s.rows, ids))), ids)
  }

  lemma PurgeEmptied(s: Sys, j: nat, tenantId: string, ids: set<string>, sweep: bool)
    requires j !in s.jobs
    ensures var s1 := StartPurge(s, j, tenantId, ids, sweep);
      && IsDeleting(s1, j) && s1.jobs[j].blobs == BlobsOf(Restrict(s.rows, ids))
      && Emptied(s1, j) == s.(disk := s.disk - BlobsOf(Restrict(s.rows, ids)),
                              jobs := s.jobs[j := Purging(tenantId, Restrict(s.rows, ids), {}, sweep)])
  {
    var s1, job := StartPurge(s, j, tenantId, ids, sweep), Purging(tenantId, Restrict(s.rows, ids), {}, sweep);
    assert s1.jobs[j := job] == s.jobs[j := job];
  }

  lemma PurgeDropped(s: Sys, j: nat, tenantId: string, ids: set<string>, sweep: bool)
    requires j !in s.jobs && ids <= s.rows.Keys
    ensures DoDropRows(Emptied(StartPurge(s, j, tenantId, ids, sweep), j), j) == Purged(s, ids)
  {
    PurgeEmptied(s, j, tenantId, ids, sweep);
    Forgotten(s.jobs, j, Purging(tenantId, Restrict(s.rows, ids), {}, sweep));
    assert Restrict(s.rows, ids).Keys == ids;
  }

  lemma PurgeRun(s: Sys, j: nat, start: Step, tenantId: string, ids: set<string>, sweep: bool)
    requires j !in s.jobs && ids <= s.rows.Keys && Next(s, start) == StartPurge(s, j, tenantId, ids, sweep)
    ensures Run(s, [start] + UnlinkAll(j, BlobsOf(Restrict(s.rows, ids))) + [DropRows(j)]) == Purged(s, ids)
  {
    var s1 := StartPurge(s, j, tenantId, ids, sweep);
    PurgeEmptied(s, j, tenantId, ids, sweep);
    UnlinkAround(s, start, s1, j, BlobsOf(Restrict(s.rows, ids)), DropRows(j));
    PurgeDropped(s, j, tenantId, ids, sweep);
  }

  ghost function DeleteSteps(s: Sys, j: nat, tenantId: string, fileIds: seq<string>): seq<Step> {
    [StartDelete(j, tenantId, fileIds)]
    + UnlinkAll(j, BlobsOf(Restrict(s.rows, Targets(s.rows, tenantId, SetOf(fileIds))))) + [DropRows(j)]
  }

  lemma DeleteRun(s: Sys, j: nat, tenantId: string, fileIds: seq<string>)
    requires j !in s.jobs && DeleteAllowed(s, tenantId, fileIds)
    ensures Run(s, DeleteSteps(s, j, tenantId, fileIds)) == Purged(s, Targets(s.rows, tenantId, SetOf(fileIds)))
  {
    PurgeRun(s, j, StartDelete(j, tenantId, fileIds), tenantId, Targets(s.rows, tenantId, SetOf(fileIds)), false);
  }

  ghost function CleanupSteps(s: Sys, j: nat, tenantId: string): seq<Step> {
    [ScanPurge(j, tenantId)]
    + UnlinkAll(j, BlobsOf(Restrict(s.rows, PurgeCandidates(s.rows, tenantId, s.now)))) + [DropRows(j)]
  }

  lemma CleanupRun(s: Sys, j: nat, tenantId: string)
    requires j !in s.jobs
    ensures Run(s, CleanupSteps(s, j, tenantId)) == Purged(s, PurgeCandidates(s.rows, tenantId, s.now))
  {
    PurgeRun(s, j, ScanPurge(j, tenantId), tenantId, PurgeCandidates(s.rows, tenantId, s.now), true);
  }

  ghost function AdminSteps(j: nat, id: string, row: FileRow): seq<Step> {
    [StartAdminDelete(j, id)] + UnlinkAll(j, Blobs(row)) + [FinishAdminDelete(j)]
  }

  function AdminTrashed(s: Sys, id: string): Sys
    requires id in s.rows
  {
    s.(rows := MarkTrashed(s.rows, {id}, s.now), disk := s.disk - Blobs(s.rows[id]),
      adminTrashed := s.adminTrashed + {id})
  }

  lemma AdminEmptied(s: Sys, j: nat, id: string)
    requires j !in s.jobs && id in s.rows && !s.rows[id].isTrashed
    ensures var s1 := DoStartAdminDelete(s, j, id);
      && IsDeleting(s1, j) && s1.jobs[j].blobs == Blobs(s.rows[id])
      && Emptied(s1, j) == s.(disk := s.disk - Blobs(s.rows[id]),
                              jobs := s.jobs[j := AdminPurging(id, s.rows[id], {})])
  {
    var s1, job := DoStartAdminDelete(s, j, id), AdminPurging(id, s.rows[id], {});
    assert s1.jobs[j := job] == s.jobs[j := job];
  }

  lemma AdminFinished(s: Sys, j: nat, id: string, row: FileRow)
    requires j !in s.jobs && id in s.rows
    ensures DoFinishAdminDelete(s.(jobs := s.jobs[j := AdminPurging(id, row, {})]), j)
         == s.(rows := MarkTrashed(s.rows, {id}, s.now), adminTrashed := s.adminTrashed + {id})
  {
    Forgotten(s.jobs, j, AdminPurging(id, row, {}));
  }

  lemma AdminRun(s: Sys, j: nat, id: string)
    requires j !in s.jobs && id in s.rows && !s.rows[id].isTrashed
    ensures Run(s, AdminSteps(j, id, s.rows[id])) == AdminTrashed(s, id)
  {
    var row := s.rows[id];
    AdminEmptied(s, j, id);
    UnlinkAround(s, StartAdminDelete(j, id), DoStartAdminDelete(s, j, id), j, Blobs(row), FinishAdminDelete(j));
    AdminFinished(s.(disk := s.disk - Blobs(row)), j, id, row);
  }

  // Sweeps

  function OrphanSteps(j: nat, tenantId: string): seq<Step> {
    [ReadLinks(j, tenantId)] + [ScanOrphans(j)] + [ApplyMarks(j)]
  }

  function ToMark(s: Sys, tenantId: string): set<string> {
    Unmarked(s.rows, OrphanCandidates(s.rows, tenantId, LinkedPdfFileIds(s.quotes, tenantId), s.now))
  }

  lemma LinksThenScan(s: Sys, j: nat, tenantId: string)
    requires j !in s.jobs
    ensures DoScanOrphans(DoReadLinks(s, j, tenantId), j)
         == s.(jobs := s.jobs[j := Marking(tenantId, ToMark(s, tenantId))])
  {
    var read := DoReadLinks(s, j, tenantId);
    var marking := Marking(tenantId, ToMark(s, tenantId));
    assert read.jobs[j := marking] == s.jobs[j := marking];
  }

  lemma MarksApplied(s: Sys, j: nat, tenantId: string, ids: set<string>)
    requires j !in s.jobs
    ensures DoApplyMarks(s.(jobs := s.jobs[j := Marking(tenantId, ids)]), j)
         == s.(rows := MarkOrphans(s.rows, ids, s.now))
  {
    Forgotten(s.jobs, j, Marking(tenantId, ids));
  }

  lemma OrphanRun(s: Sys, j: nat, tenantId: string)
    requires j !in s.jobs
    ensures Run(s, OrphanSteps(j, tenantId)) == s.(rows := MarkOrphans(s.rows, ToMark(s, tenantId), s.now))
  {
    RunAround(s, ReadLinks(j, tenantId), [ScanOrphans(j)], ApplyMarks(j));
    RunOne(DoReadLinks(s, j, tenantId), ScanOrphans(j));
    LinksThenScan(s, j, tenantId);
    MarksApplied(s, j, tenantId, ToMark(s, tenantId));
  }

  function TrashSteps(j: nat, tenantId: string): seq<Step> {
    [ScanTrash(j, tenantId)] + [ApplyTrash(j)]
  }

  lemma TrashRun(s: Sys, j: nat, tenantId: string)
    requires j !in s.jobs
    ensures Run(s, TrashSteps(j, tenantId))
         == s.(rows := MarkTrashed(s.rows, TrashCandidates(s.rows, tenantId, s.now), s.now))
  {
    RunCons(s, ScanTrash(j, tenantId), [ApplyTrash(j)]);
    RunOne(Next(s, ScanTrash(j, tenantId)), ApplyTrash(j));
    Forgotten(s.jobs, j, Trashing(tenantId, TrashCandidates(s.rows, tenantId, s.now)));
  }
}
