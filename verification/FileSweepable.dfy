/** Exactly which files the sweeps can ever take. */
module FileSweepable {
  import opened Wrappers
  import opened FileModel
  import opened FileRuns
  import opened FileAging
  import opened FileScripts

  ghost predicate Linked(s: Sys, id: string)
    requires id in s.rows
  {
    id in LinkedPdfFileIds(s.quotes, s.rows[id].tenantId)
  }

  /** The row is not both flagged and dated, no operation in progress carries it, and the next orphan
      scan will pass over it: either it is flagged already, or a quote links it as its PDF. */
  ghost predicate Protected(s: Sys, id: string) {
    && Untargeted(s, id)
    && (s.rows[id].isOrphan || forall j | j in s.jobs && s.jobs[j].LinksRead? ::
          s.jobs[j].tenantId == s.rows[id].tenantId ==> id in s.jobs[j].linked)
  }

  /** Without regard to what the next orphan scan will do. */
  ghost predicate Untargeted(s: Sys, id: string) {
    && id in s.rows && id in s.used
    && !s.rows[id].isTrashed && (s.rows[id].isOrphan ==> s.rows[id].orphanedAt.None?)
    && (forall j | j in s.jobs :: id !in Names(s.jobs[j]))
  }

  predicate Direct(step: Step) {
    step.StartDelete? || step.StartAdminDelete?
  }

  predicate Scans(step: Step) {
    step.StartUpload? || step.ScanOrphans? || step.ScanTrash? || step.ScanPurge?
  }

  lemma ScansPassOver(s: Sys, step: Step, id: string, j: nat)
    requires Untargeted(s, id) && Scans(step) && j in Next(s, step).jobs
    requires s.rows[id].entityId.Some? || (Protected(s, id) && (s.rows[id].isOrphan || Linked(s, id)))
    ensures id !in Names(Next(s, step).jobs[j])
  {
    if j in s.jobs {
      assert id !in Names(s.jobs[j]);
    }
  }

  lemma OthersPassOver(s: Sys, step: Step, id: string, j: nat)
    requires Untargeted(s, id) && !Scans(step) && !Direct(step) && j in Next(s, step).jobs
    ensures id !in Names(Next(s, step).jobs[j])
  {
    if j in s.jobs {
      assert id !in Names(s.jobs[j]);
    }
  }

  lemma WritesMissIt(s: Sys, step: Step, id: string)
    requires Untargeted(s, id)
    requires step.CreateRow? || step.ApplyMarks? || step.ApplyTrash? || step.DropRows? || step.FinishAdminDelete?
    ensures id in Next(s, step).rows && id in Next(s, step).used && Next(s, step).rows[id] == s.rows[id]
  {
    if step.j in s.jobs {
      assert id !in Names(s.jobs[step.j]);
    }
  }

  lemma RowUntouched(s: Sys, step: Step, id: string)
    requires Untargeted(s, id)
    ensures id in Next(s, step).rows && id in Next(s, step).used
    ensures Next(s, step).rows[id] == s.rows[id].(entityId := Next(s, step).rows[id].entityId)
  {
    if !WritesRows(step) {
      OtherStepsKeepRows(s, step);
    } else if !step.SetEntity? {
      WritesMissIt(s, step, id);
    }
  }

  lemma LinksReadStays(s: Sys, step: Step, j: nat)
    requires j in Next(s, step).jobs && Next(s, step).jobs[j].LinksRead?
    requires !(step.ReadLinks? && step.j == j && j !in s.jobs)
    ensures j in s.jobs && Next(s, step).jobs[j] == s.jobs[j]
  {
  }

  lemma LinksReadKept(s: Sys, step: Step, id: string, j: nat)
    requires Protected(s, id) && (s.rows[id].isOrphan || Linked(s, id)) && !s.rows[id].isOrphan
    requires j in Next(s, step).jobs && Next(s, step).jobs[j].LinksRead?
    requires Next(s, step).jobs[j].tenantId == s.rows[id].tenantId
    ensures id in Next(s, step).jobs[j].linked
  {
    if step.ReadLinks? && step.j == j && j !in s.jobs {
      assert Next(s, step).jobs[j].linked == LinkedPdfFileIds(s.quotes, step.tenantId);
    } else {
      LinksReadStays(s, step, j);
    }
  }

  lemma ProtectedStep(s: Sys, step: Step, id: string)
    requires Protected(s, id) && !Direct(step)
    requires s.rows[id].isOrphan || Linked(s, id)
    ensures Protected(Next(s, step), id)
    ensures Next(s, step).rows[id] == s.rows[id].(entityId := Next(s, step).rows[id].entityId)
  {
    RowUntouched(s, step, id);
    var s' := Next(s, step);
    forall j | j in s'.jobs ensures id !in Names(s'.jobs[j]) {
      if Scans(step) {
        ScansPassOver(s, step, id, j);
      } else {
        OthersPassOver(s, step, id, j);
      }
    }
    if !s.rows[id].isOrphan {
      forall j | j in s'.jobs && s'.jobs[j].LinksRead? && s'.jobs[j].tenantId == s.rows[id].tenantId
        ensures id in s'.jobs[j].linked
      {
        LinksReadKept(s, step, id, j);
      }
    }
  }

  /** `id` stays linked as the latest PDF of one of its tenant's quotes. */
  ghost predicate LinkedThroughout(s: Sys, steps: seq<Step>, id: string)
    decreases |steps|
  {
    && id in s.rows && Linked(s, id)
    && (steps == [] || LinkedThroughout(Next(s, steps[0]), steps[1..], id))
  }

  ghost predicate NoDirectDeletes(steps: seq<Step>) {
    forall i | 0 <= i < |steps| :: !Direct(steps[i])
  }

  lemma {:induction false} ProtectedRun(s: Sys, steps: seq<Step>, id: string)
    requires Protected(s, id) && NoDirectDeletes(steps)
    requires s.rows[id].isOrphan || LinkedThroughout(s, steps, id)
    ensures Protected(Run(s, steps), id)
    ensures Run(s, steps).rows[id] == s.rows[id].(entityId := Run(s, steps).rows[id].entityId)
    decreases |steps|
  {
    if steps != [] {
      assert !Direct(steps[0]);
      ProtectedStep(s, steps[0], id);
      ProtectedRun(Next(s, steps[0]), steps[1..], id);
    }
  }

  /** A quote's PDF survives: linked throughout, and neither marked nor trashed at the start, it is
      never marked, trashed or removed by any interleaving of sweeps. */
  lemma LinkedPdfSurvives(s: Sys, steps: seq<Step>, id: string)
    requires s.jobs == map[] && s.rows.Keys <= s.used
    requires id in s.rows && !s.rows[id].isTrashed && (s.rows[id].isOrphan ==> s.rows[id].orphanedAt.None?)
    requires NoDirectDeletes(steps) && LinkedThroughout(s, steps, id)
    ensures id in Run(s, steps).rows
    ensures Run(s, steps).rows[id] == s.rows[id].(entityId := Run(s, steps).rows[id].entityId)
  {
    ProtectedRun(s, steps, id);
  }

  /** A file uploaded without an entity is flagged but never dated, so the sweeps never take it,
      whatever other modules attach, detach, link or unlink. */
  lemma UnattachedUploadIsNeverSwept(s: Sys, j: nat, steps: seq<Step>)
    requires NamesOk(s) && j in s.jobs && s.jobs[j].Upload? && s.jobs[j].unwritten == {}
    requires var row := s.jobs[j].row;
      row == NewRow(row.fileId, row.tenantId, row.sizeBytes, None, row.storagePath, row.thumbnailPath, row.createdAt)
    requires NoDirectDeletes(steps)
    ensures var id, t := s.jobs[j].id, Run(Next(s, CreateRow(j)), steps);
      id in t.rows && t.rows[id].isOrphan && !t.rows[id].isTrashed && t.rows[id].orphanedAt.None?
  {
    ProtectedRun(Next(s, CreateRow(j)), steps, s.jobs[j].id);
  }

  /** The file stays attached to an entity. */
  ghost predicate AttachedThroughout(s: Sys, steps: seq<Step>, id: string)
    decreases |steps|
  {
    && id in s.rows && s.rows[id].entityId.Some?
    && (steps == [] || AttachedThroughout(Next(s, steps[0]), steps[1..], id))
  }

  lemma AttachedStep(s: Sys, step: Step, id: string)
    requires Untargeted(s, id) && s.rows[id].entityId.Some? && !Direct(step)
    ensures Untargeted(Next(s, step), id)
    ensures Next(s, step).rows[id] == s.rows[id].(entityId := Next(s, step).rows[id].entityId)
  {
    RowUntouched(s, step, id);
    var s' := Next(s, step);
    forall j | j in s'.jobs ensures id !in Names(s'.jobs[j]) {
      if Scans(step) {
        ScansPassOver(s, step, id, j);
      } else {
        OthersPassOver(s, step, id, j);
      }
    }
  }

  lemma {:induction false} AttachedRun(s: Sys, steps: seq<Step>, id: string)
    requires Untargeted(s, id) && AttachedThroughout(s, steps, id) && NoDirectDeletes(steps)
    ensures Untargeted(Run(s, steps), id)
    ensures Run(s, steps).rows[id] == s.rows[id].(entityId := Run(s, steps).rows[id].entityId)
    decreases |steps|
  {
    if steps != [] {
      assert !Direct(steps[0]);
      AttachedStep(s, steps[0], id);
      AttachedRun(Next(s, steps[0]), steps[1..], id);
    }
  }

  /** A file uploaded with an entity is stored with it and not flagged; while it stays attached no
      interleaving of sweeps flags, dates, trashes or removes it, and findOrphans does not find it. */
  lemma AttachedUploadIsNeverSwept(
      s: Sys, id: string, fileId: string, tenantId: string, size: nat, entity: string, path: string,
      thumbnail: Option<string>, steps: seq<Step>)
    requires s.jobs == map[] && id !in s.used && path !in s.owner && thumbnail != Some(path)
    requires thumbnail.Some? ==> thumbnail.value !in s.owner
    requires
      var row := NewRow(fileId, tenantId, size, Some(entity), path, thumbnail, s.now);
      AttachedThroughout(Run(s, UploadSteps(0, id, row)), steps, id) && NoDirectDeletes(steps)
    ensures
      var row := NewRow(fileId, tenantId, size, Some(entity), path, thumbnail, s.now);
      var u := Run(s, UploadSteps(0, id, row));
      var t := Run(u, steps);
      && u.rows[id].entityId == Some(entity) && u.rows[id].tenantId == tenantId
      && id in t.rows && t.rows[id].tenantId == tenantId
      && !t.rows[id].isOrphan && t.rows[id].orphanedAt.None? && !t.rows[id].isTrashed
      && forall linked :: id !in OrphanCandidates(t.rows, tenantId, linked, t.now)
  {
    var row := NewRow(fileId, tenantId, size, Some(entity), path, thumbnail, s.now);
    UploadRun(s, 0, id, row);
    AttachedRun(Run(s, UploadSteps(0, id, row)), steps, id);
    StillAttached(Run(s, UploadSteps(0, id, row)), steps, id);
  }

  lemma {:induction false} StillAttached(s: Sys, steps: seq<Step>, id: string)
    requires AttachedThroughout(s, steps, id)
    ensures id in Run(s, steps).rows && Run(s, steps).rows[id].entityId.Some?
    decreases |steps|
  {
    if steps != [] {
      StillAttached(Next(s, steps[0]), steps[1..], id);
    }
  }

  // ---- And everything else can be taken. ----

  /** Steps of the three sweeps, the clock, and other modules attaching and detaching files. */
  predicate Sweeping(step: Step) {
    || step.Tick? || step.SetEntity? || step.ReadLinks? || step.ScanOrphans? || step.ApplyMarks?
    || step.ScanTrash? || step.ApplyTrash? || step.ScanPurge? || step.Unlink? || step.UnlinkFails? || step.DropRows?
  }

  ghost predicate SweepingOnly(steps: seq<Step>) {
    forall i | 0 <= i < |steps| :: Sweeping(steps[i])
  }

  ghost predicate Trashes(s: Sys, steps: seq<Step>, id: string) {
    SweepingOnly(steps) && id in Run(s, steps).rows && Run(s, steps).rows[id].isTrashed
  }

  lemma TrashDated(s: Sys, id: string) returns (steps: seq<Step>)
    requires s.jobs == map[] && id in s.rows && !s.rows[id].isTrashed
    requires s.rows[id].isOrphan && s.rows[id].orphanedAt.Some?
    ensures Trashes(s, steps, id)
  {
    var wait := if s.rows[id].orphanedAt.value + GRACE > s.now then s.rows[id].orphanedAt.value + GRACE - s.now else 0;
    var tenantId := s.rows[id].tenantId;
    steps := [Tick(wait)] + TrashSteps(0, tenantId);
    RunCons(s, Tick(wait), TrashSteps(0, tenantId));
    TrashRun(Next(s, Tick(wait)), 0, tenantId);
  }

  /** A file neither flagged nor linked: detach it, wait until it is old enough, and findOrphans dates it. */
  lemma DateUnflagged(s: Sys, id: string) returns (steps: seq<Step>, s': Sys)
    requires s.jobs == map[] && id in s.rows && !s.rows[id].isTrashed
    requires !s.rows[id].isOrphan && !Linked(s, id)
    ensures SweepingOnly(steps) && s' == Run(s, steps)
    ensures s'.jobs == map[] && id in s'.rows && !s'.rows[id].isTrashed
    ensures s'.rows[id].isOrphan && s'.rows[id].orphanedAt.Some?
  {
    var tenantId := s.rows[id].tenantId;
    var wait := if s.rows[id].createdAt + GRACE > s.now then s.rows[id].createdAt + GRACE - s.now else 0;
    var s1 := Next(s, SetEntity(id, None));
    var s2 := Next(s1, Tick(wait));
    steps := [SetEntity(id, None)] + ([Tick(wait)] + OrphanSteps(0, tenantId));
    RunCons(s, SetEntity(id, None), [Tick(wait)] + OrphanSteps(0, tenantId));
    RunCons(s1, Tick(wait), OrphanSteps(0, tenantId));
    OrphanRun(s2, 0, tenantId);
    assert id in ToMark(s2, tenantId);
    s' := Run(s, steps);
  }

  lemma {:induction false} LinkKept(s: Sys, steps: seq<Step>, id: string)
    requires Protected(s, id) && SweepingOnly(steps) && Linked(s, id)
    ensures LinkedThroughout(s, steps, id)
    decreases |steps|
  {
    if steps != [] {
      var s' := Next(s, steps[0]);
      assert Sweeping(steps[0]);
      ProtectedStep(s, steps[0], id);
      var q :| q in s.quotes && s.quotes[q].tenantId == s.rows[id].tenantId && s.quotes[q].latestPdfFileId == Some(id);
      if steps[0].DropRows? && s' != s {
        assert id !in Names(s.jobs[steps[0].j]);
      }
      assert q in s'.quotes && s'.quotes[q] == s.quotes[q];
      LinkKept(s', steps[1..], id);
    }
  }

  /** What the scan and the marking make of a file, from the links read before. */
  lemma MarkedExactlyWhenUnlinked(s: Sys, j: nat, tenantId: string, linked: set<string>, id: string)
    requires j in s.jobs && s.jobs[j] == LinksRead(tenantId, linked)
    requires id in OrphanCandidates(s.rows, tenantId, {}, s.now) && !s.rows[id].isOrphan
    ensures
      var rows := DoApplyMarks(DoScanOrphans(s, j), j).rows;
      var flagged := s.rows[id].(isOrphan := true, orphanedAt := Some(s.now));
      id in rows && rows[id] == if id in linked then s.rows[id] else flagged
  {
  }

  /** A link that arrives before findOrphans reads the links protects the file; one that arrives after,
      even before the files are read, does not, although the quotes end up alike. */
  lemma LinkProtectsExactlyWhenRead(s: Sys, j: nat, tenantId: string, quoteId: string, id: string)
    requires j !in s.jobs && id in OrphanCandidates(s.rows, tenantId, LinkedPdfFileIds(s.quotes, tenantId), s.now)
    requires !s.rows[id].isOrphan
    ensures
      var link := SetQuote(quoteId, Quote(tenantId, Some(id)));
      var early, late := DoReadLinks(Next(s, link), j, tenantId), Next(DoReadLinks(s, j, tenantId), link);
      var spared, marked := DoApplyMarks(DoScanOrphans(early, j), j).rows, DoApplyMarks(DoScanOrphans(late, j), j).rows;
      && early.quotes == late.quotes && id in LinkedPdfFileIds(late.quotes, tenantId)
      && id in spared && spared[id] == s.rows[id]
      && id in marked && marked[id] == s.rows[id].(isOrphan := true, orphanedAt := Some(s.now))
  {
    var link := SetQuote(quoteId, Quote(tenantId, Some(id)));
    var early, late := DoReadLinks(Next(s, link), j, tenantId), Next(DoReadLinks(s, j, tenantId), link);
    assert early.quotes[quoteId].latestPdfFileId == Some(id);
    MarkedExactlyWhenUnlinked(early, j, tenantId, LinkedPdfFileIds(early.quotes, tenantId), id);
    MarkedExactlyWhenUnlinked(late, j, tenantId, LinkedPdfFileIds(s.quotes, tenantId), id);
  }

  /** Some sweeping run trashes an untrashed file exactly when it carries an orphan date, if it is
      flagged as an orphan, or else is not linked as a quote's PDF. Linking a file that is already
      dated does not protect it; being flagged without a date protects any file. */
  lemma SweepableExactlyWhen(s: Sys, id: string)
    requires s.jobs == map[] && s.rows.Keys <= s.used
    requires id in s.rows && !s.rows[id].isTrashed
    ensures (exists steps :: Trashes(s, steps, id)) <==>
      if s.rows[id].isOrphan then s.rows[id].orphanedAt.Some? else !Linked(s, id)
  {
    if s.rows[id].isOrphan && s.rows[id].orphanedAt.Some? {
      var steps := TrashDated(s, id);
    } else if !s.rows[id].isOrphan && !Linked(s, id) {
      var first, s' := DateUnflagged(s, id);
      var second := TrashDated(s', id);
      RunJoin(s, first, second);
      assert Trashes(s, first + second, id);
    } else {
      forall steps ensures !Trashes(s, steps, id) {
        if SweepingOnly(steps) {
          forall i | 0 <= i < |steps| ensures !Direct(steps[i]) { assert Sweeping(steps[i]); }
          if !s.rows[id].isOrphan { LinkKept(s, steps, id); }
          ProtectedRun(s, steps, id);
        }
      }
    }
  }
}
