/** The aging pipeline: unattached files are marked, marked files trashed, trashed files removed,
    thirty days apart, in every interleaving of sweeps with each other and with everything else. */
module FileAging {
  import opened FileModel
  import opened FileRuns

  /** Every row id an operation in progress carries across its awaits. */
  function Names(job: Job): set<string> {
    match job
    case Upload(id, _, _) => {id}
    case LinksRead(_, _) => {}
    case Marking(_, ids) => ids
    case Trashing(_, ids) => ids
    case Purging(_, victims, _, _) => victims.Keys
    case AdminPurging(id, _, _) => {id}
  }

  /** Row ids are never reused: an upload's id is nowhere else. */
  ghost predicate NamesOk(s: Sys) {
    && s.rows.Keys <= s.used
    && (forall j | j in s.jobs :: Names(s.jobs[j]) <= s.used)
    && (forall j | j in s.jobs && s.jobs[j].Upload? :: s.jobs[j].id !in s.rows)
    && (forall i, j | i in s.jobs && j in s.jobs && i != j && s.jobs[i].Upload? :: s.jobs[i].id !in Names(s.jobs[j]))
  }

  ghost predicate RowAged(row: FileRow, now: int) {
    && (row.orphanedAt.Some? ==> row.createdAt + GRACE <= row.orphanedAt.value <= now)
    && (row.trashedAt.Some? ==> row.createdAt + 2 * GRACE <= row.trashedAt.value <= now)
  }

  ghost predicate JobAged(s: Sys, job: Job) {
    match job
    case Upload(_, row, _) => row.orphanedAt.None? && row.trashedAt.None?
    case Marking(tenantId, ids) =>
      forall id | id in ids && id in s.rows :: s.rows[id].tenantId == tenantId && s.rows[id].createdAt + GRACE <= s.now
    case Trashing(tenantId, ids) =>
      forall id | id in ids && id in s.rows ::
        && s.rows[id].tenantId == tenantId
        && (id in s.adminTrashed || s.rows[id].createdAt + 2 * GRACE <= s.now)
    case Purging(tenantId, victims, _, sweep) =>
      forall id | id in victims && id in s.rows ::
        && s.rows[id].tenantId == tenantId
        && (!sweep || id in s.adminTrashed || s.rows[id].createdAt + 3 * GRACE <= s.now)
    case _ => true
  }

  ghost predicate Aged(s: Sys) {
    && NamesOk(s)
    && (forall id | id in s.rows && id !in s.adminTrashed :: RowAged(s.rows[id], s.now))
    && (forall j | j in s.jobs :: JobAged(s, s.jobs[j]))
  }

  /** Only job j changes, and it names only rows that exist or ids it named before. */
  ghost predicate Moves(s: Sys, s': Sys, j: nat) {
    && s'.rows.Keys <= s.rows.Keys && s'.used == s.used
    && (forall i | i in s'.jobs && i != j :: i in s.jobs && s'.jobs[i] == s.jobs[i])
    && (j in s'.jobs ==>
          if s'.jobs[j].Upload? then j in s.jobs && s.jobs[j].Upload? && s'.jobs[j].id == s.jobs[j].id
          else Names(s'.jobs[j]) <= s.rows.Keys || (j in s.jobs && Names(s'.jobs[j]) <= Names(s.jobs[j])))
  }

  lemma NamesOkAfterMove(s: Sys, s': Sys, j: nat)
    requires NamesOk(s) && Moves(s, s', j)
    ensures NamesOk(s')
  {
  }

  lemma NextNamesOkNew(s: Sys, step: Step)
    requires NamesOk(s) && (step.StartUpload? || step.CreateRow?)
    ensures NamesOk(Next(s, step))
  {
  }

  lemma MovesTo(s: Sys, s': Sys, j: nat, job: Job)
    requires s'.rows == s.rows && s'.used == s.used && s'.jobs == s.jobs[j := job]
    requires if job.Upload? then j in s.jobs && s.jobs[j].Upload? && job.id == s.jobs[j].id
             else Names(job) <= s.rows.Keys || (j in s.jobs && Names(job) <= Names(s.jobs[j]))
    ensures Moves(s, s', j)
  {
  }

  lemma MovesOff(s: Sys, s': Sys, j: nat)
    requires s'.rows.Keys <= s.rows.Keys && s'.used == s.used && s'.jobs == Forget(s.jobs, j)
    ensures Moves(s, s', j)
  {
  }

  predicate Scans(step: Step) {
    || step.ScanOrphans? || step.ScanTrash? || step.ReadLinks? || step.StartAdminDelete?
    || step.ScanPurge? || step.StartDelete?
  }

  predicate MovesBlob(step: Step) {
    step.WriteBlob? || step.Unlink? || step.UnlinkFails?
  }

  lemma ScanMoves(s: Sys, step: Step)
    requires Scans(step) && Next(s, step) != s
    ensures Moves(s, Next(s, step), step.j)
  {
    MovesTo(s, Next(s, step), step.j, Next(s, step).jobs[step.j]);
  }

  lemma BlobMoves(s: Sys, step: Step)
    requires MovesBlob(step) && Next(s, step) != s
    ensures Moves(s, Next(s, step), step.j)
  {
    var job := s.jobs[step.j];
    if step.WriteBlob? {
      MovesTo(s, Next(s, step), step.j, job.(unwritten := job.unwritten - {step.path}));
    } else {
      MovesTo(s, Next(s, step), step.j, job.(blobs := job.blobs - {step.path}));
    }
  }

  lemma EndMoves(s: Sys, step: Step)
    requires step.ApplyMarks? || step.ApplyTrash? || step.DropRows? || step.FinishAdminDelete? || step.Crash?
    requires Next(s, step) != s
    ensures Moves(s, Next(s, step), step.j)
  {
    MovesOff(s, Next(s, step), step.j);
  }

  lemma {:induction false} NextNamesOk(s: Sys, step: Step)
    requires NamesOk(s)
    ensures NamesOk(Next(s, step))
  {
    if Next(s, step) != s && !step.Tick? && !step.SetEntity? && !step.SetQuote? && !step.SetReferences? {
      if step.StartUpload? || step.CreateRow? {
        NextNamesOkNew(s, step);
      } else {
        if Scans(step) {
          ScanMoves(s, step);
        } else if MovesBlob(step) {
          BlobMoves(s, step);
        } else {
          EndMoves(s, step);
        }
        NamesOkAfterMove(s, Next(s, step), step.j);
      }
    }
  }

  lemma {:induction false} RunNamesOk(s: Sys, steps: seq<Step>)
    requires NamesOk(s)
    ensures NamesOk(Run(s, steps))
    decreases |steps|
  {
    if steps != [] {
      NextNamesOk(s, steps[0]);
      RunNamesOk(Next(s, steps[0]), steps[1..]);
    }
  }

  /** Tenant and creation time of a row never change, and only a new id can appear. */
  lemma RowsKeepIdentity(s: Sys, step: Step, id: string)
    requires NamesOk(s) && id in Next(s, step).rows
    ensures id in s.rows ==>
      && Next(s, step).rows[id].tenantId == s.rows[id].tenantId
      && Next(s, step).rows[id].createdAt == s.rows[id].createdAt
    ensures id !in s.rows ==> step.CreateRow? && step.j in s.jobs && s.jobs[step.j].Upload? && id == s.jobs[step.j].id
  {
  }

  /** A job that did not move is still justified: rows keep their identity, time only passes. */
  lemma KeptJobAged(s: Sys, s': Sys, job: Job)
    requires JobAged(s, job) && s.now <= s'.now && s.adminTrashed <= s'.adminTrashed
    requires forall id | id in s'.rows && id in Names(job) ::
      && id in s.rows
      && s'.rows[id].tenantId == s.rows[id].tenantId && s'.rows[id].createdAt == s.rows[id].createdAt
    ensures JobAged(s', job)
  {
  }

  lemma StartedPurgeAged(s: Sys, j: nat, tenantId: string, ids: set<string>, sweep: bool)
    requires forall id | id in ids ::
      && id in s.rows && s.rows[id].tenantId == tenantId
      && (!sweep || id in s.adminTrashed || s.rows[id].createdAt + 3 * GRACE <= s.now)
    ensures JobAged(StartPurge(s, j, tenantId, ids, sweep), StartPurge(s, j, tenantId, ids, sweep).jobs[j])
  {
  }

  predicate MovesJob(step: Step) {
    || step.StartUpload? || step.WriteBlob? || step.ReadLinks? || step.ScanOrphans? || step.ScanTrash?
    || step.ScanPurge? || step.StartDelete? || step.StartAdminDelete? || step.Unlink? || step.UnlinkFails?
  }

  lemma FreshJobAged(s: Sys, step: Step)
    requires (step.StartUpload? || step.ReadLinks? || step.StartAdminDelete?) && Next(s, step) != s
    ensures step.j in Next(s, step).jobs && JobAged(Next(s, step), Next(s, step).jobs[step.j])
  {
  }

  lemma ScannedJobAged(s: Sys, step: Step)
    requires Aged(s) && (step.ScanOrphans? || step.ScanTrash?) && Next(s, step) != s
    ensures step.j in Next(s, step).jobs && JobAged(Next(s, step), Next(s, step).jobs[step.j])
  {
  }

  lemma PurgeJobAged(s: Sys, step: Step)
    requires Aged(s) && (step.ScanPurge? || step.StartDelete?) && Next(s, step) != s
    ensures step.j in Next(s, step).jobs && JobAged(Next(s, step), Next(s, step).jobs[step.j])
  {
    match step
    case ScanPurge(j, tenantId) => StartedPurgeAged(s, j, tenantId, PurgeCandidates(s.rows, tenantId, s.now), true);
    case StartDelete(j, tenantId, fileIds) =>
      StartedPurgeAged(s, j, tenantId, Targets(s.rows, tenantId, SetOf(fileIds)), false);
  }

  lemma BlobJobAged(s: Sys, step: Step)
    requires MovesBlob(step) && Next(s, step) != s && JobAged(s, s.jobs[step.j])
    ensures step.j in Next(s, step).jobs && JobAged(Next(s, step), Next(s, step).jobs[step.j])
  {
  }

  lemma MovedJobAged(s: Sys, step: Step)
    requires Aged(s) && MovesJob(step) && Next(s, step) != s
    ensures step.j in Next(s, step).jobs && JobAged(Next(s, step), Next(s, step).jobs[step.j])
  {
    if step.StartUpload? || step.ReadLinks? || step.StartAdminDelete? {
      FreshJobAged(s, step);
    } else if step.ScanOrphans? || step.ScanTrash? {
      ScannedJobAged(s, step);
    } else if MovesBlob(step) {
      BlobJobAged(s, step);
    } else {
      PurgeJobAged(s, step);
    }
  }

  lemma TimePasses(s: Sys, step: Step)
    ensures s.now <= Next(s, step).now && s.adminTrashed <= Next(s, step).adminTrashed
  {
  }

  lemma MovingKeepsOthers(s: Sys, step: Step, j: nat)
    requires MovesJob(step) && j in Next(s, step).jobs && step.j != j
    ensures j in s.jobs && Next(s, step).jobs[j] == s.jobs[j]
  {
  }

  lemma EndingKeepsOthers(s: Sys, step: Step, j: nat)
    requires !MovesJob(step) && j in Next(s, step).jobs
    ensures j in s.jobs && Next(s, step).jobs[j] == s.jobs[j]
  {
  }

  lemma JobsElsewhereKept(s: Sys, step: Step, j: nat)
    requires j in Next(s, step).jobs && !(MovesJob(step) && step.j == j && Next(s, step) != s)
    ensures j in s.jobs && Next(s, step).jobs[j] == s.jobs[j]
    ensures s.now <= Next(s, step).now && s.adminTrashed <= Next(s, step).adminTrashed
    ensures (step.CreateRow? && step.j == j) ==> Next(s, step) == s
  {
    TimePasses(s, step);
    if MovesJob(step) {
      if step.j != j {
        MovingKeepsOthers(s, step, j);
      }
    } else {
      EndingKeepsOthers(s, step, j);
    }
  }

  lemma NextJobAged(s: Sys, step: Step, j: nat)
    requires Aged(s) && j in Next(s, step).jobs
    ensures JobAged(Next(s, step), Next(s, step).jobs[j])
  {
    var s' := Next(s, step);
    if MovesJob(step) && step.j == j && s' != s {
      MovedJobAged(s, step);
    } else {
      JobsElsewhereKept(s, step, j);
      forall id | id in s'.rows && id in Names(s.jobs[j])
        ensures id in s.rows
        ensures s'.rows[id].tenantId == s.rows[id].tenantId && s'.rows[id].createdAt == s.rows[id].createdAt
      {
        RowsKeepIdentity(s, step, id);
      }
      assert JobAged(s, s.jobs[j]);
      KeptJobAged(s, s', s.jobs[j]);
    }
  }

  lemma SweptRowAged(s: Sys, step: Step, id: string)
    requires Aged(s) && id in Next(s, step).rows && id !in Next(s, step).adminTrashed
    requires step.CreateRow? || step.ApplyMarks? || step.ApplyTrash?
    ensures RowAged(Next(s, step).rows[id], Next(s, step).now)
  {
    if id in s.rows {
      assert RowAged(s.rows[id], s.now);
    }
    if step.j in s.jobs {
      assert JobAged(s, s.jobs[step.j]);
    }
  }

  lemma FinishKeepsDates(s: Sys, j: nat, id: string)
    requires id in DoFinishAdminDelete(s, j).rows && id !in DoFinishAdminDelete(s, j).adminTrashed
    ensures id in s.rows && id !in s.adminTrashed && DoFinishAdminDelete(s, j).rows[id] == s.rows[id]
  {
  }

  lemma DatesKept(s: Sys, step: Step, id: string)
    requires id in Next(s, step).rows && id !in Next(s, step).adminTrashed
    requires !step.CreateRow? && !step.ApplyMarks? && !step.ApplyTrash?
    ensures id in s.rows && id !in s.adminTrashed
    ensures Next(s, step).rows[id] == s.rows[id].(entityId := Next(s, step).rows[id].entityId)
  {
    if !WritesRows(step) {
      OtherStepsKeepRows(s, step);
    } else if step.FinishAdminDelete? {
      FinishKeepsDates(s, step.j, id);
    }
  }

  lemma NextRowAged(s: Sys, step: Step, id: string)
    requires Aged(s) && id in Next(s, step).rows && id !in Next(s, step).adminTrashed
    ensures RowAged(Next(s, step).rows[id], Next(s, step).now)
  {
    if step.CreateRow? || step.ApplyMarks? || step.ApplyTrash? {
      SweptRowAged(s, step, id);
    } else {
      DatesKept(s, step, id);
      TimePasses(s, step);
      assert RowAged(s.rows[id], s.now);
    }
  }

  lemma {:induction false} RunAged(s: Sys, steps: seq<Step>)
    requires Aged(s)
    ensures Aged(Run(s, steps))
    decreases |steps|
  {
    if steps != [] {
      var s' := Next(s, steps[0]);
      NextNamesOk(s, steps[0]);
      forall id | id in s'.rows && id !in s'.adminTrashed ensures RowAged(s'.rows[id], s'.now) {
        NextRowAged(s, steps[0], id);
      }
      forall j | j in s'.jobs ensures JobAged(s', s'.jobs[j]) { NextJobAged(s, steps[0], j); }
      RunAged(s', steps[1..]);
    }
  }

  /** No sweep has ever run: nothing is marked, trashed or in progress. */
  ghost predicate NeverSwept(s: Sys) {
    && s.jobs == map[] && s.rows.Keys <= s.used
    && forall id | id in s.rows :: s.rows[id].orphanedAt.None? && s.rows[id].trashedAt.None?
  }

  /** A row removed by cleanupTrashedFiles, unless an administrator trashed it, is at least 90 days old. */
  lemma PurgedRowsAreNinetyDaysOld(s: Sys, steps: seq<Step>, j: nat, id: string)
    requires NeverSwept(s)
    requires var t := Run(s, steps);
      && j in t.jobs && t.jobs[j].Purging? && t.jobs[j].sweep
      && id in t.rows && id !in Next(t, DropRows(j)).rows && id !in t.adminTrashed
    ensures Run(s, steps).rows[id].createdAt + 90 * DAY <= Run(s, steps).now
  {
    RunAged(s, steps);
    assert JobAged(Run(s, steps), Run(s, steps).jobs[j]);
  }

  /** Which tenant's sweep a step belongs to. */
  ghost predicate SweepWrite(s: Sys, step: Step, tenantId: string) {
    && (step.ApplyMarks? || step.ApplyTrash? || step.DropRows?)
    && step.j in s.jobs
    && match s.jobs[step.j]
       case Marking(t, _) => t == tenantId
       case Trashing(t, _) => t == tenantId
       case Purging(t, _, _, _) => t == tenantId
       case _ => false
  }

  /** In every reachable state, a sweep writes only rows of the tenant it was asked to sweep. */
  lemma SweepsStayInTheirTenant(s: Sys, steps: seq<Step>, step: Step, tenantId: string, id: string)
    requires NeverSwept(s) && SweepWrite(Run(s, steps), step, tenantId)
    requires id in Run(s, steps).rows && Run(s, steps).rows[id].tenantId != tenantId
    ensures id in Next(Run(s, steps), step).rows
    ensures Next(Run(s, steps), step).rows[id] == Run(s, steps).rows[id]
  {
    RunAged(s, steps);
    assert JobAged(Run(s, steps), Run(s, steps).jobs[step.j]);
  }
}
