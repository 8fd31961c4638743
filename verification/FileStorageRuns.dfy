/** What getFileInfo answers after any run of uploads and deletes. */
module FileStorageRuns {
  import opened Wrappers
  import opened FileStorage

  datatype Step =
    | Stored(tenant: string, folder: Folder, id: string, originalName: string)
    | Deleted(tenant: string, folder: Folder, id: string)
    | DeletedByPath(dir: Dir, name: string)

  ghost predicate Next(disk: Disk, step: Step, after: Disk) {
    match step
    case Stored(tenant, folder, id, originalName) =>
      after == Written(disk, Dir(tenant, folder), FileName(id, originalName))
    case Deleted(tenant, folder, id) => Deletes(disk, tenant, folder, id, after)
    case DeletedByPath(dir, name) => after == Unlinked(disk, dir, name)
  }

  /** A run from an empty disk: disks[i] is the disk before step i. */
  ghost predicate Run(steps: seq<Step>, disks: seq<Disk>) {
    && |disks| == |steps| + 1 && disks[0] == map[]
    && forall i | 0 <= i < |steps| :: Next(disks[i], steps[i], disks[i + 1])
  }

  /** Upload ids are never repeated, and every id has the one length. */
  ghost predicate FreshIds(steps: seq<Step>) {
    && (forall i | 0 <= i < |steps| && !steps[i].DeletedByPath? :: |steps[i].id| == ID_LENGTH)
    && (forall i, j | 0 <= i < j < |steps| && steps[i].Stored? && steps[j].Stored? :: steps[i].id != steps[j].id)
  }

  /** Where the log says the file is: where it was stored, until a delete that names it. */
  function Replay(steps: seq<Step>, tenant: string, id: string): Option<Place> {
    if steps == [] then None
    else
      var last, before := steps[|steps| - 1], Replay(steps[..|steps| - 1], tenant, id);
      match last
      case Stored(t, folder, i, originalName) =>
        if t == tenant && i == id then Some(Place(folder, FileName(id, originalName))) else before
      case Deleted(t, folder, i) =>
        if t == tenant && i == id && before.Some? && before.value.folder == folder then None else before
      case DeletedByPath(dir, name) =>
        if dir.tenant == tenant && before == Some(Place(dir.folder, name)) then None else before
  }

  /** Among ids of one length, prefix matching is equality. */
  lemma NameMatchesOwnId(id: string, own: string, originalName: string)
    requires |id| == |own|
    ensures id <= FileName(own, originalName) <==> id == own
  {
    assert FileName(own, originalName)[..|own|] == own;
  }

  lemma {:induction false} NotYetStored(steps: seq<Step>, tenant: string, id: string)
    requires forall i | 0 <= i < |steps| && steps[i].Stored? :: steps[i].id != id
    ensures Replay(steps, tenant, id).None?
  {
    if steps != [] {
      NotYetStored(steps[..|steps| - 1], tenant, id);
    }
  }

  /** On this disk the names that match the id are the one the log tells of. */
  ghost predicate MatchesLog(disk: Disk, log: Option<Place>, tenant: string, id: string) {
    forall place :: Matches(disk, tenant, id, place) <==> log == Some(place)
  }

  lemma StoredKeeps(disk: Disk, before: Option<Place>, tenant: string, id: string, dir: Dir, i: string,
    originalName: string)
    requires |id| == |i| && MatchesLog(disk, before, tenant, id)
    requires dir.tenant == tenant && i == id ==> before.None?
    ensures
      var name := FileName(i, originalName);
      var log := if dir.tenant == tenant && i == id then Some(Place(dir.folder, name)) else before;
      MatchesLog(Written(disk, dir, name), log, tenant, id)
  {
    NameMatchesOwnId(id, i, originalName);
    var name, after := FileName(i, originalName), Written(disk, dir, FileName(i, originalName));
    forall place
      ensures Matches(after, tenant, id, place)
           <==> || Matches(disk, tenant, id, place)
                || (dir == Dir(tenant, place.folder) && place.name == name && id <= name)
    {
    }
  }

  lemma UnlinkKeeps(disk: Disk, before: Option<Place>, tenant: string, id: string, dir: Dir, name: string)
    requires MatchesLog(disk, before, tenant, id)
    ensures
      var log := if dir.tenant == tenant && before == Some(Place(dir.folder, name)) then None else before;
      MatchesLog(Unlinked(disk, dir, name), log, tenant, id)
  {
    forall place
      ensures Matches(Unlinked(disk, dir, name), tenant, id, place)
           <==> Matches(disk, tenant, id, place) && !(dir == Dir(tenant, place.folder) && place.name == name)
    {
    }
  }

  lemma DeleteKeeps(disk: Disk, before: Option<Place>, tenant: string, id: string, step: Step, after: Disk)
    requires step.Deleted? && |id| == |step.id| && MatchesLog(disk, before, tenant, id) && Next(disk, step, after)
    ensures
      var hit := step.tenant == tenant && step.id == id && before.Some? && before.value.folder == step.folder;
      MatchesLog(after, if hit then None else before, tenant, id)
  {
    if NoMatch(disk, step.tenant, step.folder, step.id) {
      if step.tenant == tenant && step.id == id && before.Some? {
        assert Matches(disk, tenant, id, before.value);
      }
    } else {
      var dir := Dir(step.tenant, step.folder);
      var name :| Matches(disk, step.tenant, step.id, Place(step.folder, name)) && after == Unlinked(disk, dir, name);
      UnlinkKeeps(disk, before, tenant, id, dir, name);
      assert name[..|id|] == step.id;
      if step.tenant == tenant && before == Some(Place(step.folder, name)) {
        assert Matches(disk, tenant, id, before.value);
      }
      if step.tenant == tenant && step.id == id {
        assert before == Some(Place(step.folder, name));
      }
    }
  }

  /** One step of the log and of the disk. */
  lemma StepMatchesLog(steps: seq<Step>, last: Step, disk: Disk, after: Disk, tenant: string, id: string)
    requires FreshIds(steps + [last]) && |id| == ID_LENGTH && Next(disk, last, after)
    requires MatchesLog(disk, Replay(steps, tenant, id), tenant, id)
    ensures MatchesLog(after, Replay(steps + [last], tenant, id), tenant, id)
  {
    var all, before := steps + [last], Replay(steps, tenant, id);
    assert all[..|all| - 1] == steps && all[|all| - 1] == last;
    match last
    case Stored(t, folder, i, originalName) =>
      if i == id {
        assert forall k | 0 <= k < |steps| :: all[k] == steps[k];
        NotYetStored(steps, tenant, id);
      }
      StoredKeeps(disk, before, tenant, id, Dir(t, folder), i, originalName);
    case Deleted(_, _, _) =>
      DeleteKeeps(disk, before, tenant, id, last, after);
    case DeletedByPath(dir, name) =>
      UnlinkKeeps(disk, before, tenant, id, dir, name);
  }

  lemma {:induction false} DiskMatchesLog(steps: seq<Step>, disks: seq<Disk>, tenant: string, id: string)
    requires Run(steps, disks) && FreshIds(steps) && |id| == ID_LENGTH
    ensures MatchesLog(disks[|steps|], Replay(steps, tenant, id), tenant, id)
  {
    if steps != [] {
      var n := |steps| - 1;
      DiskMatchesLog(steps[..n], disks[..n + 1], tenant, id);
      assert steps == steps[..n] + [steps[n]];
      StepMatchesLog(steps[..n], steps[n], disks[n], disks[n + 1], tenant, id);
    }
  }

  /** After any run, getFileInfo answers what the upload returned until the file is deleted, and that it
      does not exist before and after: its only possible answer is the log's. */
  lemma LookupAnswersTheLog(steps: seq<Step>, disks: seq<Disk>, tenant: string, id: string, found: Option<Place>)
    requires Run(steps, disks) && FreshIds(steps) && |id| == ID_LENGTH
    ensures Answers(disks[|steps|], tenant, id, found) <==> found == Replay(steps, tenant, id)
  {
    DiskMatchesLog(steps, disks, tenant, id);
    OnlyTheLogAnswers(disks[|steps|], Replay(steps, tenant, id), tenant, id, found);
  }

  lemma OnlyTheLogAnswers(disk: Disk, log: Option<Place>, tenant: string, id: string, found: Option<Place>)
    requires MatchesLog(disk, log, tenant, id)
    ensures Answers(disk, tenant, id, found) <==> found == log
  {
    forall folder ensures NoMatch(disk, tenant, folder, id) <==> (log.Some? ==> log.value.folder != folder) {
      if log.Some? && log.value.folder == folder {
        assert Matches(disk, tenant, id, Place(folder, log.value.name));
      }
    }
  }

  /** A delete changes what the log says of no other file. */
  lemma DeleteAffectsOneId(steps: seq<Step>, tenant: string, folder: Folder, id: string, otherTenant: string,
    other: string)
    requires otherTenant != tenant || other != id
    ensures Replay(steps + [Deleted(tenant, folder, id)], otherTenant, other) == Replay(steps, otherTenant, other)
    ensures Replay(steps + [Deleted(tenant, folder, id)], tenant, id) ==
      (var before := Replay(steps, tenant, id); if before.Some? && before.value.folder == folder then None else before)
  {
    assert (steps + [Deleted(tenant, folder, id)])[..|steps|] == steps;
  }

  /** The length matters: a shorter id deletes whatever begins with it. */
  lemma ShorterIdDeletesAnother(disk: Disk, tenant: string, folder: Folder, id: string, shorter: string,
    originalName: string, after: Disk)
    requires shorter < id && Dir(tenant, folder) !in disk
    requires Deletes(Written(disk, Dir(tenant, folder), FileName(id, originalName)), tenant, folder, shorter, after)
    ensures forall name :: !Matches(after, tenant, id, Place(folder, name))
  {
    var name := FileName(id, originalName);
    assert name[..|shorter|] == shorter;
    assert Matches(Written(disk, Dir(tenant, folder), name), tenant, shorter, Place(folder, name));
  }
}
