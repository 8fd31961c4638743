/** Database rows and stored blobs agree in every interleaving, crash by crash. */
module FileDisk {
  import opened Wrappers
  import opened FileModel
  import opened FileRuns

  /** The row ids an operation in progress is about to create or remove. */
  function Touches(job: Job): set<string> {
    match job
    case Upload(id, _, _) => {id}
    case Purging(_, victims, _, _) => victims.Keys
    case AdminPurging(id, _, _) => {id}
    case _ => {}
  }

  /** A deletion in progress: whatever it no longer has to unlink is already gone. */
  ghost predicate VictimOk(s: Sys, id: string, row: FileRow, blobs: set<string>) {
    && OwnedBy(s.owner, id, row)
    && (id in s.rows ==> Blobs(s.rows[id]) == Blobs(row))
    && forall p | p in Blobs(row) :: p in blobs || p !in s.disk || p in s.leaked
  }

  ghost predicate JobOk(s: Sys, job: Job) {
    match job
    case Upload(id, row, unwritten) =>
      && id in s.used && id !in s.rows && id !in s.adminTrashed && id !in s.refused && OwnedBy(s.owner, id, row)
      && unwritten <= Blobs(row) && Blobs(row) - unwritten <= s.disk
    case Purging(_, victims, blobs, _) =>
      && victims.Keys <= s.used && blobs <= BlobsOf(victims)
      && forall id | id in victims :: VictimOk(s, id, victims[id], blobs)
    case AdminPurging(id, row, blobs) => id in s.used && blobs <= Blobs(row) && VictimOk(s, id, row, blobs)
    case _ => true
  }

  ghost predicate JobsOk(s: Sys) {
    && (forall j | j in s.jobs :: JobOk(s, s.jobs[j]))
    && (forall i, j | i in s.jobs && j in s.jobs && i != j && s.jobs[i].Upload? :: s.jobs[i].id !in Touches(s.jobs[j]))
  }

  /** Why a row may be missing a blob: trashed by an administrator, being deleted, or its deletion
      crashed or was refused. */
  ghost predicate Excused(s: Sys, id: string) {
    Recorded(s, id) || BeingDeleted(s, id)
  }

  predicate Recorded(s: Sys, id: string) {
    id in s.adminTrashed || id in s.damaged || id in s.refused
  }

  ghost predicate BeingDeleted(s: Sys, id: string) {
    exists j :: j in s.jobs && !s.jobs[j].Upload? && id in Touches(s.jobs[j])
  }

  ghost predicate RowOk(s: Sys, id: string)
    requires id in s.rows
  {
    && id in s.used && OwnedBy(s.owner, id, s.rows[id])
    && (Excused(s, id) || Blobs(s.rows[id]) <= s.disk)
    && (id in s.adminTrashed || id in s.refused ==> Blobs(s.rows[id]) * s.disk <= s.leaked)
  }

  ghost predicate WrittenBy(s: Sys, j: nat, p: string) {
    j in s.jobs && s.jobs[j].Upload? && p in Blobs(s.jobs[j].row) && p !in s.jobs[j].unwritten
  }

  /** Every blob belongs to the row or the upload in progress it was drawn for, or was left behind. */
  ghost predicate BlobOk(s: Sys, p: string) {
    && p in s.owner
    && ( || (s.owner[p] in s.rows && p in Blobs(s.rows[s.owner[p]]))
         || (exists j :: WrittenBy(s, j, p))
         || p in s.leaked)
  }

  ghost predicate Agree(s: Sys) {
    && JobsOk(s) && s.adminTrashed <= s.used && s.refused <= s.used
    && (forall id | id in s.rows :: RowOk(s, id))
    && (forall p | p in s.disk :: BlobOk(s, p))
  }

  // ---- Each kind of step keeps the agreement. ----

  /** The history only grows and no deletion in progress ends. */
  ghost predicate DeletionsKept(s: Sys, s': Sys) {
    && s.adminTrashed <= s'.adminTrashed && s.damaged <= s'.damaged && s.refused <= s'.refused
    && forall j | j in s.jobs && !s.jobs[j].Upload? && Touches(s.jobs[j]) != {} ::
         j in s'.jobs && !s'.jobs[j].Upload? && Touches(s'.jobs[j]) == Touches(s.jobs[j])
  }

  lemma ExcusedKept(s: Sys, s': Sys, id: string)
    requires DeletionsKept(s, s') && Excused(s, id)
    ensures Excused(s', id)
  {
    if !Recorded(s, id) {
      var j :| j in s.jobs && !s.jobs[j].Upload? && id in Touches(s.jobs[j]);
      assert Touches(s.jobs[j]) != {};
    }
  }

  /** Blobs keep the row id they were drawn for. */
  ghost predicate OwnersKept(s: Sys, s': Sys) {
    forall p | p in s.owner :: p in s'.owner && s'.owner[p] == s.owner[p]
  }

  /** A job stays in order while blobs only go, and none of its own rows changes or appears. */
  lemma JobKept(s: Sys, s': Sys, job: Job)
    requires JobOk(s, job) && s.used <= s'.used && s.leaked <= s'.leaked && OwnersKept(s, s') && s'.disk <= s.disk
    requires forall id | id in Touches(job) && id in s'.rows :: id in s.rows && Blobs(s'.rows[id]) == Blobs(s.rows[id])
    requires job.Upload? ==> job.id !in s'.adminTrashed + s'.refused && Blobs(job.row) * s.disk <= s'.disk
    ensures JobOk(s', job)
  {
    if job.Purging? {
      forall id | id in job.victims ensures VictimOk(s', id, job.victims[id], job.blobs) {
        assert VictimOk(s, id, job.victims[id], job.blobs);
      }
    }
  }

  /** With the table and the disk as they were, only the jobs have to be looked at. */
  lemma RowsAndDiskKept(s: Sys, s': Sys)
    requires Agree(s) && JobsOk(s') && DeletionsKept(s, s')
    requires s'.rows == s.rows && s'.disk == s.disk && s.used <= s'.used && s.leaked <= s'.leaked && OwnersKept(s, s')
    requires s'.adminTrashed == s.adminTrashed && s'.refused == s.refused
    requires forall j | j in s.jobs && s.jobs[j].Upload? :: j in s'.jobs && s'.jobs[j] == s.jobs[j]
    ensures Agree(s')
  {
    forall id | id in s'.rows ensures RowOk(s', id) {
      assert RowOk(s, id);
      if Excused(s, id) { ExcusedKept(s, s', id); }
    }
    forall p | p in s'.disk ensures BlobOk(s', p) {
      assert BlobOk(s, p);
      if i :| WrittenBy(s, i, p) { assert WrittenBy(s', i, p); }
    }
  }

  lemma UploadedJobOk(s: Sys, s': Sys, id: string, row: FileRow)
    requires Agree(s) && id !in s.used && id in s'.used && s'.rows == s.rows
    requires s'.adminTrashed == s.adminTrashed && s'.refused == s.refused && OwnedBy(s'.owner, id, row)
    ensures JobOk(s', Upload(id, row, Blobs(row)))
  {
    assert id in s.rows ==> RowOk(s, id);
  }

  lemma StartUploadAgrees(s: Sys, j: nat, id0: string, row: FileRow)
    requires Agree(s) && DoStartUpload(s, j, id0, row) != s
    ensures Agree(DoStartUpload(s, j, id0, row))
  {
    var s' := DoStartUpload(s, j, id0, row);
    forall i | i in s'.jobs ensures JobOk(s', s'.jobs[i]) {
      if i != j { JobKept(s, s', s.jobs[i]); } else { UploadedJobOk(s, s', id0, row); }
    }
    forall i | i in s.jobs ensures id0 !in Touches(s.jobs[i]) { assert JobOk(s, s.jobs[i]); }
    RowsAndDiskKept(s, s');
  }

  lemma WriteBlobAgrees(s: Sys, j: nat, path: string)
    requires Agree(s) && DoWriteBlob(s, j, path) != s
    ensures Agree(DoWriteBlob(s, j, path))
  {
    var s' := DoWriteBlob(s, j, path);
    assert JobOk(s, s.jobs[j]);
    forall i | i in s'.jobs ensures JobOk(s', s'.jobs[i]) {
      assert JobOk(s, s.jobs[i]);
      assert i != j ==> s.jobs[j].id !in Touches(s.jobs[i]);
    }
    forall id | id in s'.rows ensures RowOk(s', id) {
      assert RowOk(s, id);
      if Excused(s, id) { ExcusedKept(s, s', id); }
    }
    forall p | p in s'.disk ensures BlobOk(s', p) {
      if p == path {
        assert WrittenBy(s', j, p);
      } else {
        assert BlobOk(s, p);
        if i :| WrittenBy(s, i, p) { assert WrittenBy(s', i, p); }
      }
    }
  }

  lemma CreateRowAgrees(s: Sys, j: nat)
    requires Agree(s) && DoCreateRow(s, j) != s
    ensures Agree(DoCreateRow(s, j))
  {
    var s', id0 := DoCreateRow(s, j), s.jobs[j].id;
    assert JobOk(s, s.jobs[j]);
    assert Blobs(s'.rows[id0]) == Blobs(s.jobs[j].row);
    forall i | i in s'.jobs ensures JobOk(s', s'.jobs[i]) {
      assert i in s.jobs && s'.jobs[i] == s.jobs[i] && JobOk(s, s.jobs[i]);
      assert id0 !in Touches(s.jobs[i]);
    }
    forall id | id in s'.rows ensures RowOk(s', id) {
      if id != id0 {
        assert RowOk(s, id);
        if Excused(s, id) { ExcusedKept(s, s', id); }
      }
    }
    forall p | p in s'.disk ensures BlobOk(s', p) {
      assert BlobOk(s, p);
      if i :| WrittenBy(s, i, p) {
        if i != j { assert WrittenBy(s', i, p); }
      }
    }
  }

  /** Steps that only rewrite row flags, read the tables, or change what other modules own. */
  ghost predicate Harmless(s: Sys, s': Sys) {
    && s'.disk == s.disk && s'.used == s.used && s'.owner == s.owner && s'.leaked == s.leaked
    && DeletionsKept(s, s') && s'.adminTrashed == s.adminTrashed && s'.refused == s.refused
    && s'.rows.Keys == s.rows.Keys
    && (forall id | id in s.rows ::
          && Blobs(s'.rows[id]) == Blobs(s.rows[id])
          && (OwnedBy(s.owner, id, s.rows[id]) ==> OwnedBy(s.owner, id, s'.rows[id])))
    && (forall j | j in s.jobs && s.jobs[j].Upload? :: j in s'.jobs && s'.jobs[j] == s.jobs[j])
    && (forall j | j in s'.jobs ::
          || s'.jobs[j].LinksRead? || s'.jobs[j].Marking? || s'.jobs[j].Trashing?
          || (j in s.jobs && s'.jobs[j] == s.jobs[j]))
  }

  lemma HarmlessAgrees(s: Sys, s': Sys)
    requires Agree(s) && Harmless(s, s')
    ensures Agree(s')
  {
    forall j | j in s'.jobs ensures JobOk(s', s'.jobs[j]) {
      if j in s.jobs && s'.jobs[j] == s.jobs[j] {
        assert JobOk(s, s.jobs[j]);
        JobKept(s, s', s.jobs[j]);
      }
    }
    forall id | id in s'.rows ensures RowOk(s', id) {
      assert RowOk(s, id);
      if Excused(s, id) { ExcusedKept(s, s', id); }
    }
    forall p | p in s'.disk ensures BlobOk(s', p) {
      assert BlobOk(s, p);
      if i :| WrittenBy(s, i, p) { assert WrittenBy(s', i, p); }
    }
  }

  /** The steps of findOrphans, moveOrphansToTrash and of everything outside this service. */
  predicate SweepStep(step: Step) {
    || step.Tick? || step.SetEntity? || step.SetQuote? || step.SetReferences? || step.ReadLinks?
    || step.ScanOrphans? || step.ApplyMarks? || step.ScanTrash? || step.ApplyTrash?
  }

  ghost predicate SamePaths(rows: Rows, rows': Rows) {
    rows'.Keys == rows.Keys && forall id | id in rows ::
      rows'[id].storagePath == rows[id].storagePath && rows'[id].thumbnailPath == rows[id].thumbnailPath
  }

  lemma FlagsHarmless(s: Sys, rows: Rows, jobs: map<nat, Job>)
    requires Agree(s) && SamePaths(s.rows, rows)
    requires jobs == s.jobs
      || exists j :: j in s.jobs && Touches(s.jobs[j]) == {} && !s.jobs[j].Purging? && jobs == Forget(s.jobs, j)
    ensures Agree(s.(rows := rows, jobs := jobs))
  {
    HarmlessAgrees(s, s.(rows := rows, jobs := jobs));
  }

  lemma ReadingHarmless(s: Sys, j: nat, job: Job)
    requires Agree(s) && (j in s.jobs ==> s.jobs[j].LinksRead?)
    requires job.LinksRead? || job.Marking? || job.Trashing?
    ensures Agree(s.(jobs := s.jobs[j := job]))
  {
    HarmlessAgrees(s, s.(jobs := s.jobs[j := job]));
  }

  lemma SetEntityAgrees(s: Sys, id: string, entityId: Option<string>)
    requires Agree(s)
    ensures Agree(DoSetEntity(s, id, entityId))
  {
    FlagsHarmless(s, DoSetEntity(s, id, entityId).rows, s.jobs);
  }

  /** The clock, the quotes and the references are not part of the agreement. */
  lemma OutsideAgrees(s: Sys, s': Sys)
    requires Agree(s) && s' == s.(now := s'.now, quotes := s'.quotes, references := s'.references)
    ensures Agree(s')
  {
    HarmlessAgrees(s, s');
  }

  lemma ReadingAgrees(s: Sys, step: Step)
    requires Agree(s) && (step.ReadLinks? || step.ScanOrphans? || step.ScanTrash?) && Next(s, step) != s
    ensures Agree(Next(s, step))
  {
    ReadingHarmless(s, step.j, Next(s, step).jobs[step.j]);
  }

  lemma SweepAgrees(s: Sys, step: Step)
    requires Agree(s) && SweepStep(step) && Next(s, step) != s
    ensures Agree(Next(s, step))
  {
    if step.ReadLinks? || step.ScanOrphans? || step.ScanTrash? {
      ReadingAgrees(s, step);
    } else if step.ApplyMarks? || step.ApplyTrash? {
      FlagsHarmless(s, Next(s, step).rows, Next(s, step).jobs);
    } else if step.SetEntity? {
      SetEntityAgrees(s, step.id, step.entityId);
    } else {
      OutsideAgrees(s, Next(s, step));
    }
  }

  lemma StartPurgeAgrees(s: Sys, j: nat, tenantId: string, ids: set<string>, sweep: bool)
    requires Agree(s) && j !in s.jobs && ids <= s.rows.Keys
    ensures Agree(StartPurge(s, j, tenantId, ids, sweep))
  {
    var s' := StartPurge(s, j, tenantId, ids, sweep);
    forall i | i in s'.jobs ensures JobOk(s', s'.jobs[i]) {
      if i != j {
        assert JobOk(s, s.jobs[i]);
      } else {
        forall id | id in ids ensures VictimOk(s', id, s.rows[id], s'.jobs[j].blobs) {
          assert RowOk(s, id);
          assert s'.jobs[j].victims[id] == s.rows[id];
          forall p | p in Blobs(s.rows[id]) ensures p in s'.jobs[j].blobs { }
        }
      }
    }
    forall i | i in s.jobs && s.jobs[i].Upload? ensures s.jobs[i].id !in ids { assert JobOk(s, s.jobs[i]); }
    RowsAndDiskKept(s, s');
  }

  lemma StartAdminAgrees(s: Sys, j: nat, id: string)
    requires Agree(s) && DoStartAdminDelete(s, j, id) != s
    ensures Agree(DoStartAdminDelete(s, j, id))
  {
    var s' := DoStartAdminDelete(s, j, id);
    assert RowOk(s, id);
    forall i | i in s'.jobs ensures JobOk(s', s'.jobs[i]) {
      if i != j { assert JobOk(s, s.jobs[i]); }
    }
    forall i | i in s.jobs && s.jobs[i].Upload? ensures s.jobs[i].id != id { assert JobOk(s, s.jobs[i]); }
    RowsAndDiskKept(s, s');
  }

  /** A blob being unlinked was drawn for a row the unlinking operation touches. */
  lemma UnlinkedOwner(s: Sys, job: Job, path: string)
    requires JobOk(s, job) && (job.Purging? || job.AdminPurging?) && path in job.blobs
    ensures path in s.owner && s.owner[path] in Touches(job)
  {
    if job.Purging? {
      var id, p :| id in job.victims && p in Blobs(job.victims[id]) && p == path;
      assert VictimOk(s, id, job.victims[id], job.blobs);
    }
  }

  /** A deletion that has one blob less to unlink, which is gone or left behind. */
  lemma UnlinkedJobOk(s: Sys, s': Sys, j: nat, path: string)
    requires Agree(s) && IsDeleting(s, j) && s'.rows == s.rows && s'.used == s.used && s'.owner == s.owner
    requires s.leaked <= s'.leaked && s'.disk <= s.disk && (path in s'.disk ==> path in s'.leaked)
    ensures JobOk(s', s.jobs[j].(blobs := s.jobs[j].blobs - {path}))
  {
    var job := s.jobs[j];
    assert JobOk(s, job);
    if job.Purging? {
      forall id | id in job.victims ensures VictimOk(s', id, job.victims[id], job.blobs - {path}) {
        assert VictimOk(s, id, job.victims[id], job.blobs);
      }
    }
  }

  lemma UnlinkFailsAgrees(s: Sys, j: nat, path: string)
    requires Agree(s) && DoUnlinkFails(s, j, path) != s
    ensures Agree(DoUnlinkFails(s, j, path))
  {
    var s' := DoUnlinkFails(s, j, path);
    forall i | i in s'.jobs ensures JobOk(s', s'.jobs[i]) {
      if i != j { JobKept(s, s', s.jobs[i]); } else { UnlinkedJobOk(s, s', j, path); }
    }
    RowsAndDiskKept(s, s');
  }

  lemma UnlinkRowOk(s: Sys, j: nat, path: string, id: string)
    requires Agree(s) && DoUnlink(s, j, path) != s && id in s.rows
    ensures RowOk(DoUnlink(s, j, path), id)
  {
    assert RowOk(s, id) && JobOk(s, s.jobs[j]);
    UnlinkedOwner(s, s.jobs[j], path);
    if Excused(s, id) { ExcusedKept(s, DoUnlink(s, j, path), id); }
  }

  lemma UnlinkAgrees(s: Sys, j: nat, path: string)
    requires Agree(s) && DoUnlink(s, j, path) != s
    ensures Agree(DoUnlink(s, j, path))
  {
    var s' := DoUnlink(s, j, path);
    assert JobOk(s, s.jobs[j]);
    UnlinkedOwner(s, s.jobs[j], path);
    forall i | i in s'.jobs ensures JobOk(s', s'.jobs[i]) {
      assert JobOk(s, s.jobs[i]);
      if i != j { JobKept(s, s', s.jobs[i]); } else { UnlinkedJobOk(s, s', j, path); }
    }
    forall id | id in s'.rows ensures RowOk(s', id) { UnlinkRowOk(s, j, path, id); }
    forall p | p in s'.disk ensures BlobOk(s', p) {
      assert BlobOk(s, p);
      if i :| WrittenBy(s, i, p) { assert WrittenBy(s', i, p); }
    }
  }

  /** Deletion j ends; every row it touched that stays is recorded, and has no blob but leaked ones. */
  ghost predicate Ended(s: Sys, j: nat, s': Sys) {
    && j in s.jobs && (s.jobs[j].Purging? || s.jobs[j].AdminPurging?) && s'.jobs == Forget(s.jobs, j)
    && s'.disk == s.disk && s'.used == s.used && s'.owner == s.owner && s'.leaked == s.leaked
    && s.adminTrashed <= s'.adminTrashed && s.refused <= s'.refused && s'.damaged == s.damaged
    && s'.adminTrashed + s'.refused <= s.adminTrashed + s.refused + Touches(s.jobs[j])
    && s'.rows.Keys <= s.rows.Keys && (forall id | id in s.rows && id !in s'.rows :: id in Touches(s.jobs[j]))
    && (forall id | id in s'.rows ::
          && s'.rows[id].storagePath == s.rows[id].storagePath && s'.rows[id].thumbnailPath == s.rows[id].thumbnailPath
          && (id in Touches(s.jobs[j]) ==> id in s'.adminTrashed || id in s'.refused))
  }

  lemma EndedJobs(s: Sys, j: nat, s': Sys, i: nat)
    requires Agree(s) && Ended(s, j, s') && i in s'.jobs
    ensures JobOk(s', s'.jobs[i])
  {
    assert i in s.jobs && s'.jobs[i] == s.jobs[i] && JobOk(s, s.jobs[i]);
    JobKept(s, s', s.jobs[i]);
  }

  /** A deletion that has nothing left to unlink leaves its rows without blobs. */
  lemma Bare(s: Sys, job: Job, id: string)
    requires JobOk(s, job) && (job.Purging? || job.AdminPurging?) && job.blobs == {} && id in Touches(job)
      && id in s.rows
    ensures Blobs(s.rows[id]) * s.disk <= s.leaked
  {
    if job.Purging? {
      assert VictimOk(s, id, job.victims[id], job.blobs);
    }
  }

  lemma EndedRows(s: Sys, j: nat, s': Sys, id: string)
    requires Agree(s) && Ended(s, j, s') && s.jobs[j].blobs == {} && id in s'.rows
    ensures RowOk(s', id)
  {
    assert RowOk(s, id) && JobOk(s, s.jobs[j]);
    if id in Touches(s.jobs[j]) {
      Bare(s, s.jobs[j], id);
    } else if BeingDeleted(s, id) {
      var i :| i in s.jobs && !s.jobs[i].Upload? && id in Touches(s.jobs[i]);
      assert i in s'.jobs && s'.jobs[i] == s.jobs[i];
    }
  }

  lemma EndedBlobs(s: Sys, j: nat, s': Sys, p: string)
    requires Agree(s) && Ended(s, j, s') && s.jobs[j].blobs == {} && p in s'.disk
    ensures BlobOk(s', p)
  {
    assert BlobOk(s, p) && JobOk(s, s.jobs[j]);
    if i :| WrittenBy(s, i, p) {
      assert WrittenBy(s', i, p);
    } else if p !in s.leaked && s.owner[p] !in s'.rows {
      Bare(s, s.jobs[j], s.owner[p]);
    }
  }

  lemma EndedAgrees(s: Sys, j: nat, s': Sys)
    requires Agree(s) && Ended(s, j, s') && s.jobs[j].blobs == {}
    ensures Agree(s')
  {
    assert JobOk(s, s.jobs[j]);
    forall i | i in s'.jobs ensures JobOk(s', s'.jobs[i]) { EndedJobs(s, j, s', i); }
    forall id | id in s'.rows ensures RowOk(s', id) { EndedRows(s, j, s', id); }
    forall p | p in s'.disk ensures BlobOk(s', p) { EndedBlobs(s, j, s', p); }
  }

  lemma DropRowsAgrees(s: Sys, j: nat)
    requires Agree(s) && DoDropRows(s, j) != s
    ensures Agree(DoDropRows(s, j))
  {
    EndedAgrees(s, j, DoDropRows(s, j));
  }

  lemma FinishAdminAgrees(s: Sys, j: nat)
    requires Agree(s) && DoFinishAdminDelete(s, j) != s
    ensures Agree(DoFinishAdminDelete(s, j))
  {
    EndedAgrees(s, j, DoFinishAdminDelete(s, j));
  }

  lemma CrashRows(s: Sys, j: nat, id: string)
    requires Agree(s) && j in s.jobs && id in s.rows && id in DoCrash(s, j).rows
    ensures RowOk(DoCrash(s, j), id)
  {
    var s', job := DoCrash(s, j), s.jobs[j];
    assert RowOk(s, id);
    if BeingDeleted(s, id) {
      var i :| i in s.jobs && !s.jobs[i].Upload? && id in Touches(s.jobs[i]);
      assert i == j || (i in s'.jobs && s'.jobs[i] == s.jobs[i]);
      assert i == j ==> id in s'.damaged;
    }
  }

  lemma CrashAgrees(s: Sys, j: nat)
    requires Agree(s) && j in s.jobs
    ensures Agree(DoCrash(s, j))
  {
    var s', job := DoCrash(s, j), s.jobs[j];
    forall i | i in s'.jobs ensures JobOk(s', s'.jobs[i]) {
      assert i in s.jobs && s'.jobs[i] == s.jobs[i] && JobOk(s, s.jobs[i]);
      JobKept(s, s', s.jobs[i]);
    }
    forall id | id in s'.rows ensures RowOk(s', id) { CrashRows(s, j, id); }
    forall p | p in s'.disk ensures BlobOk(s', p) {
      assert BlobOk(s, p);
      if i :| WrittenBy(s, i, p) {
        assert i != j ==> WrittenBy(s', i, p);
      }
    }
  }

  lemma NextAgrees(s: Sys, step: Step)
    requires Agree(s)
    ensures Agree(Next(s, step))
  {
    if Next(s, step) != s {
      match step
      case StartUpload(j, id, fileId, tenantId, sizeBytes, entityId, storagePath, thumbnailPath) =>
        StartUploadAgrees(s, j, id,
          NewRow(fileId, tenantId, sizeBytes, entityId, storagePath, thumbnailPath, s.now));
      case WriteBlob(j, path) => WriteBlobAgrees(s, j, path);
      case CreateRow(j) => CreateRowAgrees(s, j);
      case ScanPurge(j, tenantId) => StartPurgeAgrees(s, j, tenantId, PurgeCandidates(s.rows, tenantId, s.now), true);
      case StartDelete(j, tenantId, fileIds) =>
        StartPurgeAgrees(s, j, tenantId, Targets(s.rows, tenantId, SetOf(fileIds)), false);
      case StartAdminDelete(j, id) => StartAdminAgrees(s, j, id);
      case Unlink(j, path) => UnlinkAgrees(s, j, path);
      case UnlinkFails(j, path) => UnlinkFailsAgrees(s, j, path);
      case DropRows(j) => DropRowsAgrees(s, j);
      case FinishAdminDelete(j) => FinishAdminAgrees(s, j);
      case Crash(j) => CrashAgrees(s, j);
      case _ => SweepAgrees(s, step);
    }
  }

  lemma {:induction false} RunAgrees(s: Sys, steps: seq<Step>)
    requires Agree(s)
    ensures Agree(Run(s, steps))
    decreases |steps|
  {
    if steps != [] {
      NextAgrees(s, steps[0]);
      RunAgrees(Next(s, steps[0]), steps[1..]);
    }
  }

  lemma QuietAgrees(s: Sys)
    requires Quiet(s)
    ensures Agree(s)
  {
    forall id | id in s.rows ensures RowOk(s, id) { }
    forall p | p in s.disk ensures BlobOk(s, p) {
      var id, q :| id in s.rows && q in Blobs(s.rows[id]) && q == p;
      assert OwnedBy(s.owner, id, s.rows[id]);
    }
  }

  // ---- What a run means for the table and the disk. ----

  /** From a quiet service, after any run: a row lacks a blob only if it is excused, every stored
      blob is accounted for, and no blob belongs to two rows. */
  lemma RowsAndBlobsAgree(s: Sys, steps: seq<Step>)
    requires Quiet(s)
    ensures var t := Run(s, steps);
      && (forall id | id in t.rows && !Excused(t, id) :: Blobs(t.rows[id]) <= t.disk)
      && (forall p | p in t.disk :: BlobOk(t, p))
      && (forall a, b, p | a in t.rows && b in t.rows && p in Blobs(t.rows[a]) && p in Blobs(t.rows[b]) :: a == b)
  {
    QuietAgrees(s);
    RunAgrees(s, steps);
    var t := Run(s, steps);
    forall a, b, p | a in t.rows && b in t.rows && p in Blobs(t.rows[a]) && p in Blobs(t.rows[b]) ensures a == b {
      assert RowOk(t, a) && RowOk(t, b);
    }
    forall id | id in t.rows && !Excused(t, id) ensures Blobs(t.rows[id]) <= t.disk {
      assert RowOk(t, id);
    }
  }

  /** No process died and the file system unlinked whatever it was asked to. */
  ghost predicate NoAccidents(steps: seq<Step>) {
    forall i | 0 <= i < |steps| :: !steps[i].Crash? && !steps[i].UnlinkFails?
  }

  lemma NoDebrisFrom(s: Sys, step: Step)
    requires !step.Crash? && !step.UnlinkFails?
    ensures Next(s, step).leaked == s.leaked && Next(s, step).damaged == s.damaged
  {
  }

  lemma {:induction false} NoDebris(s: Sys, steps: seq<Step>)
    requires NoAccidents(steps)
    ensures Run(s, steps).leaked == s.leaked && Run(s, steps).damaged == s.damaged
    decreases |steps|
  {
    if steps != [] {
      NoDebrisFrom(s, steps[0]);
      NoDebris(Next(s, steps[0]), steps[1..]);
    }
  }

  /** If nothing went wrong on this side and every request has finished, the disk holds exactly the blobs
      of the rows that no administrator trashed and whose deletion the database never refused. */
  lemma SettledDiskIsTheTable(s: Sys, steps: seq<Step>)
    requires Quiet(s) && NoAccidents(steps) && Run(s, steps).jobs == map[]
    ensures Run(s, steps).disk == BlobsOf(Run(s, steps).rows - Run(s, steps).adminTrashed - Run(s, steps).refused)
  {
    QuietAgrees(s);
    RunAgrees(s, steps);
    NoDebris(s, steps);
    SettledAgreement(Run(s, steps));
  }

  lemma SettledAgreement(t: Sys)
    requires Agree(t) && t.jobs == map[] && t.leaked == {} && t.damaged == {}
    ensures t.disk == BlobsOf(t.rows - t.adminTrashed - t.refused)
  {
    var kept := t.rows - t.adminTrashed - t.refused;
    forall p | p in BlobsOf(kept) ensures p in t.disk {
      var id, q :| id in kept && q in Blobs(kept[id]) && q == p;
      assert RowOk(t, id);
    }
    forall p | p in t.disk ensures p in BlobsOf(kept) {
      assert BlobOk(t, p);
      assert RowOk(t, t.owner[p]) && t.owner[p] in kept && p in Blobs(kept[t.owner[p]]);
    }
  }

  /** A row whose deletion the database refused is still there, and no administrator trashed it. */
  ghost predicate Stranded(t: Sys) {
    exists id :: id in t.rows && id in t.refused && id !in t.adminTrashed
  }

  /** The disk then holds exactly the blobs of the rows no administrator trashed, exactly when no refused
      deletion has left a row stranded. */
  lemma SettledDiskIsTheTableExactlyWhen(s: Sys, steps: seq<Step>)
    requires Quiet(s) && NoAccidents(steps) && Run(s, steps).jobs == map[]
    ensures Run(s, steps).disk == BlobsOf(Run(s, steps).rows - Run(s, steps).adminTrashed) <==> !Stranded(Run(s, steps))
  {
    SettledDiskIsTheTable(s, steps);
    QuietAgrees(s);
    RunAgrees(s, steps);
    NoDebris(s, steps);
    var t := Run(s, steps);
    if id :| id in t.rows && id in t.refused && id !in t.adminTrashed {
      assert RowOk(t, id);
      assert id in t.rows - t.adminTrashed && t.rows[id].storagePath in Blobs((t.rows - t.adminTrashed)[id]);
    } else {
      assert t.rows - t.adminTrashed == t.rows - t.adminTrashed - t.refused;
    }
  }

  /** The step is a DELETE the database refuses, and takes with it a row no administrator trashed. */
  ghost predicate Strands(s: Sys, step: Step) {
    && step.DropRows? && step.j in s.jobs && s.jobs[step.j].Purging? && s.jobs[step.j].blobs == {}
    && Refused(s.rows, s.references, s.jobs[step.j].victims.Keys)
    && exists id :: id in s.jobs[step.j].victims && id in s.rows && id !in s.adminTrashed
  }

  lemma RefusedDeleteStrands(s: Sys, j: nat)
    requires Strands(s, DropRows(j))
    ensures Stranded(Next(s, DropRows(j)))
  {
    var id :| id in s.jobs[j].victims && id in s.rows && id !in s.adminTrashed;
    assert id in Next(s, DropRows(j)).refused;
  }

  /** A row becomes stranded by such a DELETE and in no other way. */
  lemma StrandsExactlyWhen(s: Sys, step: Step)
    requires Agree(s) && !Stranded(s)
    ensures Stranded(Next(s, step)) <==> Strands(s, step)
  {
    var s' := Next(s, step);
    if Strands(s, step) {
      RefusedDeleteStrands(s, step.j);
    } else if id :| id in s'.rows && id in s'.refused && id !in s'.adminTrashed {
      OnlyDeletesRefuse(s, step, id);
    }
  }

  /** No other step refuses a deletion, and none but the creation of a row adds one. */
  lemma NothingElseRefuses(s: Sys, step: Step)
    requires !step.CreateRow? && !step.DropRows?
    ensures Next(s, step).refused == s.refused && Next(s, step).rows.Keys == s.rows.Keys
    ensures s.adminTrashed <= Next(s, step).adminTrashed
  {
  }

  lemma NewRowsNotRefused(s: Sys, j: nat, id: string)
    requires Agree(s) && id in DoCreateRow(s, j).rows && id in s.refused
    ensures id in s.rows
  {
    if j in s.jobs {
      assert JobOk(s, s.jobs[j]);
    }
  }

  lemma OnlyDeletesRefuse(s: Sys, step: Step, id: string)
    requires Agree(s) && !Stranded(s) && !Strands(s, step)
    requires id in Next(s, step).rows && id in Next(s, step).refused
    ensures id in Next(s, step).adminTrashed
  {
    if step.CreateRow? {
      NewRowsNotRefused(s, step.j, id);
    } else if step.DropRows? {
      DropRowsRefuses(s, step.j, id);
    } else {
      NothingElseRefuses(s, step);
    }
  }

  lemma DropRowsRefuses(s: Sys, j: nat, id: string)
    requires !Stranded(s) && !Strands(s, DropRows(j))
    requires id in DoDropRows(s, j).rows && id in DoDropRows(s, j).refused
    ensures id in s.adminTrashed
  {
    assert id in s.rows;
    if id !in s.refused {
      assert id in s.jobs[j].victims;
    }
  }

  ghost predicate NeverStranded(s: Sys, steps: seq<Step>)
    decreases |steps|
  {
    !Stranded(s) && (steps == [] || NeverStranded(Next(s, steps[0]), steps[1..]))
  }

  ghost predicate NoDeleteStrands(s: Sys, steps: seq<Step>)
    decreases |steps|
  {
    steps == [] || (!Strands(s, steps[0]) && NoDeleteStrands(Next(s, steps[0]), steps[1..]))
  }

  /** No row is ever stranded on a run exactly when none of its DELETEs meets a restricting table on
      behalf of such a row. */
  lemma {:induction false} NeverStrandedExactlyWhen(s: Sys, steps: seq<Step>)
    requires Agree(s) && !Stranded(s)
    ensures NeverStranded(s, steps) <==> NoDeleteStrands(s, steps)
    decreases |steps|
  {
    if steps != [] {
      StrandsExactlyWhen(s, steps[0]);
      NextAgrees(s, steps[0]);
      if !Stranded(Next(s, steps[0])) {
        NeverStrandedExactlyWhen(Next(s, steps[0]), steps[1..]);
      }
    }
  }

  lemma {:induction false} NeverStrandedAtTheEnd(s: Sys, steps: seq<Step>)
    requires NeverStranded(s, steps)
    ensures !Stranded(Run(s, steps))
    decreases |steps|
  {
    if steps != [] {
      NeverStrandedAtTheEnd(Next(s, steps[0]), steps[1..]);
    }
  }

  /** So where no DELETE strands a row, the settled disk is the table. */
  lemma UnrestrictedDeletesKeepAgreement(s: Sys, steps: seq<Step>)
    requires Quiet(s) && NoAccidents(steps) && Run(s, steps).jobs == map[] && NoDeleteStrands(s, steps)
    ensures Run(s, steps).disk == BlobsOf(Run(s, steps).rows - Run(s, steps).adminTrashed)
  {
    QuietAgrees(s);
    NeverStrandedExactlyWhen(s, steps);
    NeverStrandedAtTheEnd(s, steps);
    SettledDiskIsTheTableExactlyWhen(s, steps);
  }
}
