/** A sweep that meets a row some table still refers to: its blobs go, its rows stay. */
module FileStranding {
  import opened FileModel
  import opened FileRuns
  import opened FileDisk
  import opened FileScripts

  /** The rows a cleanup of the tenant takes now. */
  function Due(s: Sys, tenantId: string): set<string> {
    PurgeCandidates(s.rows, tenantId, s.now)
  }

  /** cleanupTrashedFiles, run alone on a service at rest with nothing stranded, strands its batch exactly
      when some file due for removal is held by a restricting table and some file due was not trashed by an
      administrator. */
  lemma CleanupStrandsExactlyWhen(s: Sys, tenantId: string)
    requires s.jobs == map[] && !Stranded(s)
    ensures Stranded(Run(s, CleanupSteps(s, 0, tenantId)))
       <==> Refused(s.rows, s.references, Due(s, tenantId)) && exists id :: id in Due(s, tenantId) - s.adminTrashed
  {
    CleanupRun(s, 0, tenantId);
    PurgedStrands(s, Due(s, tenantId));
  }

  lemma PurgedStrands(s: Sys, due: set<string>)
    requires due <= s.rows.Keys && !Stranded(s)
    ensures Stranded(Purged(s, due)) <==> Refused(s.rows, s.references, due) && exists id :: id in due - s.adminTrashed
  {
    var t := Purged(s, due);
    if Stranded(t) {
      var id :| id in t.rows && id in t.refused && id !in t.adminTrashed;
      assert id in due - s.adminTrashed;
    }
    if Refused(s.rows, s.references, due) {
      forall id | id in due - s.adminTrashed ensures Stranded(t) { assert id in t.rows && id in t.refused; }
    }
  }

  /** Every file of a refused batch loses its blobs and keeps its row, and the next sweep meets the same
      batch and is refused again. */
  lemma RefusedBatchStays(s: Sys, tenantId: string, id: string)
    requires s.jobs == map[] && Refused(s.rows, s.references, Due(s, tenantId))
    requires id in Due(s, tenantId)
    ensures var t := Run(s, CleanupSteps(s, 0, tenantId));
      && id in t.rows && t.adminTrashed == s.adminTrashed && Blobs(t.rows[id]) !! t.disk
      && Run(t, CleanupSteps(t, 0, tenantId)) == t
  {
    CleanupRun(s, 0, tenantId);
    var t := Run(s, CleanupSteps(s, 0, tenantId));
    VictimBlobsGone(s, Due(s, tenantId), id);
    CleanupRun(t, 0, tenantId);
    PurgedTwice(s, Due(s, tenantId));
  }

  lemma VictimBlobsGone(s: Sys, due: set<string>, id: string)
    requires id in due && id in s.rows
    ensures Blobs(s.rows[id]) !! (s.disk - BlobsOf(Restrict(s.rows, due)))
  {
    forall p | p in Blobs(s.rows[id]) ensures p in BlobsOf(Restrict(s.rows, due)) {
      assert id in Restrict(s.rows, due) && p in Blobs(Restrict(s.rows, due)[id]);
    }
  }

  lemma PurgedTwice(s: Sys, due: set<string>)
    requires Refused(s.rows, s.references, due)
    ensures Purged(Purged(s, due), due) == Purged(s, due)
  {
    var t := Purged(s, due);
    assert t.disk - BlobsOf(Restrict(t.rows, due)) == t.disk;
    assert t.refused + due * t.rows.Keys == t.refused;
  }

  /** The other ways to part a row from its blobs are real: a deletion that dies leaves its rows and the
      disk as they are at that moment, with the rows recorded as damaged. */
  lemma CrashKeepsRows(s: Sys, j: nat)
    requires IsDeleting(s, j)
    ensures
      var t := Next(s, Crash(j));
      && t.rows == s.rows && t.disk == s.disk && t.jobs == Forget(s.jobs, j)
      && t.damaged == s.damaged + match s.jobs[j]
                                  case Purging(_, victims, _, _) => victims.Keys
                                  case AdminPurging(id, _, _) => {id}
  {
  }

  /** An upload that dies leaves the blobs it has written, recorded as leaked, and no row. */
  lemma CrashLeaks(s: Sys, j: nat)
    requires j in s.jobs && s.jobs[j].Upload?
    ensures
      var t := Next(s, Crash(j));
      && t.rows == s.rows && t.disk == s.disk && t.jobs == Forget(s.jobs, j)
      && t.leaked == s.leaked + (Blobs(s.jobs[j].row) - s.jobs[j].unwritten)
  {
  }

  /** And an unlink that fails leaves the blob behind, recorded as such. */
  lemma FailedUnlinkLeaks(s: Sys, j: nat, path: string)
    requires IsDeleting(s, j) && path in s.jobs[j].blobs && path in s.disk
    ensures
      var t := Next(s, UnlinkFails(j, path));
      path in t.disk && path in t.leaked && IsDeleting(t, j) && t.jobs[j].blobs == s.jobs[j].blobs - {path}
  {
  }

  /** The deletion before its DELETE, its blobs gone, and a reference that has arrived meanwhile. */
  function Awaiting(s: Sys, tenantId: string, ids: set<string>, fileId: string, refs: References): Sys {
    s.(disk := s.disk - BlobsOf(Restrict(s.rows, ids)), references := s.references[fileId := refs],
       jobs := s.jobs[0 := Purging(tenantId, Restrict(s.rows, ids), {}, false)])
  }

  lemma AwaitingRun(s: Sys, tenantId: string, fileIds: seq<string>, fileId: string, refs: References)
    requires s.jobs == map[] && DeleteAllowed(s, tenantId, fileIds)
    ensures
      var ids, arrival := Targets(s.rows, tenantId, SetOf(fileIds)), SetReferences(fileId, refs);
      Run(s, [StartDelete(0, tenantId, fileIds)] + UnlinkAll(0, BlobsOf(Restrict(s.rows, ids))) + [arrival])
      == Awaiting(s, tenantId, ids, fileId, refs)
  {
    var ids := Targets(s.rows, tenantId, SetOf(fileIds));
    PurgeEmptied(s, 0, tenantId, ids, false);
    UnlinkAround(s, StartDelete(0, tenantId, fileIds), StartPurge(s, 0, tenantId, ids, false), 0,
                 BlobsOf(Restrict(s.rows, ids)), SetReferences(fileId, refs));
  }

  lemma AwaitingRefused(s: Sys, tenantId: string, ids: set<string>, id: string, refs: References)
    requires s.jobs == map[] && ids <= s.rows.Keys && id in ids && refs.Restricts()
    ensures var t := DoDropRows(Awaiting(s, tenantId, ids, s.rows[id].fileId, refs), 0);
      && t.jobs == map[] && t.rows == s.rows && t.refused == s.refused + ids
      && t.disk == s.disk - BlobsOf(Restrict(s.rows, ids))
  {
    Forgotten(s.jobs, 0, Purging(tenantId, Restrict(s.rows, ids), {}, false));
    assert Restrict(s.rows, ids).Keys == ids == ids * s.rows.Keys;
  }

  /** A reference that arrives after the check of a deletion, by however little: the blobs of all its files
      are gone by then, and the database refuses the rows of all. */
  lemma LateReferenceStrands(s: Sys, tenantId: string, fileIds: seq<string>, id: string, refs: References)
    requires s.jobs == map[] && DeleteAllowed(s, tenantId, fileIds) && refs.Restricts()
    requires id in Targets(s.rows, tenantId, SetOf(fileIds))
    ensures
      var ids, arrival := Targets(s.rows, tenantId, SetOf(fileIds)), SetReferences(s.rows[id].fileId, refs);
      var u := Run(s, [StartDelete(0, tenantId, fileIds)] + UnlinkAll(0, BlobsOf(Restrict(s.rows, ids))) + [arrival]);
      var t := DoDropRows(u, 0);
      && t.jobs == map[] && t.rows == s.rows && t.refused == s.refused + ids
      && t.disk == s.disk - BlobsOf(Restrict(s.rows, ids))
  {
    AwaitingRun(s, tenantId, fileIds, s.rows[id].fileId, refs);
    AwaitingRefused(s, tenantId, Targets(s.rows, tenantId, SetOf(fileIds)), id, refs);
  }

  /** An administrator deletes a file that a table still refers to; thirty days later the sweep takes it
      together with the tenant's other files that are due, and none of them can go. */
  lemma AdminDeletionStrandsOthers(s: Sys, tenantId: string, held: string, other: string)
    requires s.jobs == map[] && held in s.rows && other in s.rows && held != other
    requires s.rows[held].tenantId == tenantId && !s.rows[held].isTrashed
    requires s.rows[held].fileId in s.references && s.references[s.rows[held].fileId].Restricts()
    requires s.rows[other].tenantId == tenantId && s.rows[other].isTrashed && s.rows[other].trashedAt.Some?
    requires s.rows[other].trashedAt.value <= s.now && other !in s.adminTrashed
    ensures var t := Next(Run(s, AdminSteps(0, held, s.rows[held])), Tick(GRACE));
      var u := Run(t, CleanupSteps(t, 0, tenantId));
      && other in u.rows && other !in u.adminTrashed && Blobs(u.rows[other]) !! u.disk
      && Run(u, CleanupSteps(u, 0, tenantId)) == u
  {
    AdminRun(s, 0, held);
    HeldBatchRefused(s, tenantId, held, other);
    RefusedBatchStays(Next(AdminTrashed(s, held), Tick(GRACE)), tenantId, other);
  }

  lemma HeldBatchRefused(s: Sys, tenantId: string, held: string, other: string)
    requires held in s.rows && other in s.rows && held != other && s.rows[held].tenantId == tenantId
    requires s.rows[held].fileId in s.references && s.references[s.rows[held].fileId].Restricts()
    requires s.rows[other].tenantId == tenantId && s.rows[other].isTrashed && s.rows[other].trashedAt.Some?
    requires s.rows[other].trashedAt.value <= s.now
    ensures var t := Next(AdminTrashed(s, held), Tick(GRACE));
      && other in Due(t, tenantId) && Refused(t.rows, t.references, Due(t, tenantId))
      && t.jobs == s.jobs && t.adminTrashed == s.adminTrashed + {held}
  {
    var t := Next(AdminTrashed(s, held), Tick(GRACE));
    assert t.rows[other] == s.rows[other] && other in Due(t, tenantId);
    assert held in Due(t, tenantId) && t.rows[held].fileId in t.references;
  }
}
