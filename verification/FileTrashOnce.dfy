/** A row's trashed_at is written once exactly when no two operations about to write it overlap. */
module FileTrashOnce {
  import opened Wrappers
  import opened FileModel
  import opened FileRuns
  import opened FileAging
  import opened FileScripts

  /** The rows a writer in progress is about to trash. */
  function Prey(job: Job): set<string> {
    match job
    case Trashing(_, ids) => ids
    case AdminPurging(id, _, _) => {id}
    case _ => {}
  }

  /** The sweeps and administrator deletions in progress that are about to trash the row. */
  function Writers(jobs: map<nat, Job>, id: string): set<nat> {
    set j | j in jobs && id in Prey(jobs[j])
  }

  /** At no time are more than `width` of them in progress. */
  ghost predicate AtMost(s: Sys, steps: seq<Step>, id: string, width: nat)
    decreases |steps|
  {
    && |Writers(s.jobs, id)| <= width
    && (steps == [] || AtMost(Next(s, steps[0]), steps[1..], id, width))
  }

  /** The step dates the row anew, though it is already in the trash. */
  ghost predicate Redates(s: Sys, step: Step, id: string) {
    && id in s.rows && s.rows[id].isTrashed && id in Next(s, step).rows
    && Next(s, step).rows[id].trashedAt != s.rows[id].trashedAt
  }

  ghost predicate WrittenOnce(s: Sys, steps: seq<Step>, id: string)
    decreases |steps|
  {
    steps == [] || (!Redates(s, steps[0], id) && WrittenOnce(Next(s, steps[0]), steps[1..], id))
  }

  // One writer at a time

  /** No writer in progress holds the row once it is in the trash. */
  ghost predicate PreyAlive(s: Sys, id: string) {
    && (id in s.rows && s.rows[id].isTrashed ==> forall j | j in s.jobs :: id !in Prey(s.jobs[j]))
    && (forall j | j in s.jobs && s.jobs[j].Upload? :: !s.jobs[j].row.isTrashed)
  }

  lemma OneWriter(jobs: map<nat, Job>, id: string, a: nat, b: nat)
    requires |Writers(jobs, id)| <= 1 && a in Writers(jobs, id) && b in Writers(jobs, id)
    ensures a == b
  {
    var others := Writers(jobs, id) - {a};
    assert |others| == |Writers(jobs, id)| - 1;
    assert b !in others;
  }

  predicate Trashes(step: Step) {
    step.ApplyTrash? || step.FinishAdminDelete?
  }

  lemma TrashingKeepsAlive(s: Sys, step: Step, id: string)
    requires PreyAlive(s, id) && |Writers(s.jobs, id)| <= 1 && Trashes(step)
    ensures PreyAlive(Next(s, step), id)
  {
    if Next(s, step) != s && id in Prey(s.jobs[step.j]) {
      forall j | j in s.jobs && id in Prey(s.jobs[j]) ensures j == step.j { OneWriter(s.jobs, id, j, step.j); }
    }
  }

  lemma StartingKeepsAlive(s: Sys, step: Step, id: string)
    requires PreyAlive(s, id) && (step.ScanTrash? || step.StartAdminDelete? || step.StartUpload?)
    ensures PreyAlive(Next(s, step), id)
  {
  }

  lemma MovingKeepsAlive(s: Sys, step: Step, id: string)
    requires PreyAlive(s, id) && (step.WriteBlob? || step.Unlink? || step.UnlinkFails? || step.CreateRow?)
    ensures PreyAlive(Next(s, step), id)
  {
  }

  predicate Idle(step: Step) {
    || step.Tick? || step.SetEntity? || step.SetQuote? || step.SetReferences? || step.ReadLinks? || step.ScanOrphans?
    || step.ApplyMarks? || step.ScanPurge? || step.StartDelete? || step.DropRows? || step.Crash?
  }

  lemma IdleKeepsRow(s: Sys, step: Step, id: string)
    requires Idle(step) && id in Next(s, step).rows
    ensures id in s.rows && Next(s, step).rows[id].isTrashed == s.rows[id].isTrashed
    ensures Next(s, step).rows[id].trashedAt == s.rows[id].trashedAt
  {
    if !WritesRows(step) {
      OtherStepsKeepRows(s, step);
    }
  }

  lemma IdleStartsNoWriter(s: Sys, step: Step, j: nat)
    requires Idle(step) && j in Next(s, step).jobs
    requires Prey(Next(s, step).jobs[j]) != {} || Next(s, step).jobs[j].Upload?
    ensures j in s.jobs && Next(s, step).jobs[j] == s.jobs[j]
  {
  }

  lemma IdleKeepsAlive(s: Sys, step: Step, id: string)
    requires PreyAlive(s, id) && Idle(step)
    ensures PreyAlive(Next(s, step), id)
  {
    if id in Next(s, step).rows {
      IdleKeepsRow(s, step, id);
    }
    var jobs := Next(s, step).jobs;
    forall j | j in jobs && (Prey(jobs[j]) != {} || jobs[j].Upload?) ensures j in s.jobs && jobs[j] == s.jobs[j] {
      IdleStartsNoWriter(s, step, j);
    }
  }

  lemma NextKeepsAlive(s: Sys, step: Step, id: string)
    requires PreyAlive(s, id) && |Writers(s.jobs, id)| <= 1
    ensures PreyAlive(Next(s, step), id)
  {
    if Trashes(step) {
      TrashingKeepsAlive(s, step, id);
    } else if Idle(step) {
      IdleKeepsAlive(s, step, id);
    } else if step.ScanTrash? || step.StartAdminDelete? || step.StartUpload? {
      StartingKeepsAlive(s, step, id);
    } else {
      MovingKeepsAlive(s, step, id);
    }
  }

  lemma NothingRedated(s: Sys, step: Step, id: string)
    requires PreyAlive(s, id) && NamesOk(s)
    ensures !Redates(s, step, id)
  {
    if Idle(step) && id in Next(s, step).rows {
      IdleKeepsRow(s, step, id);
    }
  }

  lemma {:induction false} SerialWritesOnce(s: Sys, steps: seq<Step>, id: string)
    requires PreyAlive(s, id) && NamesOk(s) && AtMost(s, steps, id, 1)
    ensures WrittenOnce(s, steps, id)
    decreases |steps|
  {
    if steps != [] {
      NothingRedated(s, steps[0], id);
      NextNamesOk(s, steps[0]);
      NextKeepsAlive(s, steps[0], id);
      SerialWritesOnce(Next(s, steps[0]), steps[1..], id);
    }
  }

  // Two administrators delete one file

  predicate OfTwo(step: Step) {
    step.Tick? || ((step.StartAdminDelete? || step.Unlink? || step.FinishAdminDelete?) && step.j < 2)
  }

  lemma FewWriters(jobs: map<nat, Job>, id: string)
    requires jobs.Keys <= {0, 1}
    ensures |Writers(jobs, id)| <= 2
  {
    var w := Writers(jobs, id);
    assert w <= {0, 1};
    assert {0, 1} == w + ({0, 1} - w);
  }

  lemma StaysTwo(s: Sys, step: Step)
    requires s.jobs.Keys <= {0, 1} && OfTwo(step)
    ensures Next(s, step).jobs.Keys <= {0, 1}
  {
  }

  lemma {:induction false} TwoJobs(s: Sys, steps: seq<Step>, id: string, width: nat)
    requires width >= 2 && s.jobs.Keys <= {0, 1} && forall i | 0 <= i < |steps| :: OfTwo(steps[i])
    ensures AtMost(s, steps, id, width)
    decreases |steps|
  {
    FewWriters(s.jobs, id);
    if steps != [] {
      StaysTwo(s, steps[0]);
      TwoJobs(Next(s, steps[0]), steps[1..], id, width);
    }
  }

  lemma {:induction false} UnlinksOfTwo(j: nat, blobs: set<string>)
    requires j < 2
    ensures forall i | 0 <= i < |UnlinkAll(j, blobs)| :: OfTwo(UnlinkAll(j, blobs)[i])
    decreases |blobs|
  {
    if blobs != {} {
      var p :| p in blobs && UnlinkAll(j, blobs) == [Unlink(j, p)] + UnlinkAll(j, blobs - {p});
      UnlinksOfTwo(j, blobs - {p});
    }
  }

  lemma {:induction false} WrittenOnceThen(s: Sys, a: seq<Step>, last: Step, id: string)
    requires Redates(Run(s, a), last, id)
    ensures !WrittenOnce(s, a + [last], id)
    decreases |a|
  {
    if a == [] {
      assert a + [last] == [last];
    } else {
      assert (a + [last])[0] == a[0] && (a + [last])[1..] == a[1..] + [last];
      WrittenOnceThen(Next(s, a[0]), a[1..], last, id);
    }
  }

  /** The first deletion, run while a second one has already read the row. */
  lemma FirstDeletion(s: Sys, id: string)
    requires s.jobs == map[] && id in s.rows && !s.rows[id].isTrashed
    ensures var row := s.rows[id];
      var t := Run(s, [StartAdminDelete(1, id)] + AdminSteps(0, id, row));
      && id in t.rows && t.rows[id].isTrashed && t.rows[id].trashedAt == Some(t.now)
      && t.jobs == map[1 := AdminPurging(id, row, Blobs(row))]
  {
    var row, s1 := s.rows[id], Next(s, StartAdminDelete(1, id));
    RunCons(s, StartAdminDelete(1, id), AdminSteps(0, id, row));
    AdminRun(s1, 0, id);
    assert s1.jobs == map[1 := AdminPurging(id, row, Blobs(row))];
  }

  /** The second deletion dates the row again, a millisecond later. */
  lemma SecondDeletion(t: Sys, id: string, row: FileRow)
    requires t.jobs == map[1 := AdminPurging(id, row, Blobs(row))]
    requires id in t.rows && t.rows[id].isTrashed && t.rows[id].trashedAt == Some(t.now)
    ensures Redates(Run(t, [Tick(1)] + UnlinkAll(1, Blobs(row))), FinishAdminDelete(1), id)
  {
    RunCons(t, Tick(1), UnlinkAll(1, Blobs(row)));
    UnlinkAllRun(Next(t, Tick(1)), 1, Blobs(row));
    var u := Emptied(Next(t, Tick(1)), 1);
    assert u.jobs[1] == AdminPurging(id, row, {});
    FinishRedates(u, id);
  }

  lemma FinishRedates(u: Sys, id: string)
    requires 1 in u.jobs && u.jobs[1].AdminPurging? && u.jobs[1].id == id && u.jobs[1].blobs == {}
    requires id in u.rows && u.rows[id].isTrashed && u.rows[id].trashedAt != Some(u.now)
    ensures Redates(u, FinishAdminDelete(1), id)
  {
    assert Next(u, FinishAdminDelete(1)).rows[id].trashedAt == Some(u.now);
  }

  /** Both read the row untrashed, so both date it. */
  lemma OverlapRedates(s: Sys, id: string, width: nat) returns (steps: seq<Step>)
    requires width >= 2 && s.jobs == map[] && id in s.rows && !s.rows[id].isTrashed
    ensures AtMost(s, steps, id, width) && !WrittenOnce(s, steps, id)
  {
    var row := s.rows[id];
    var first, second := [StartAdminDelete(1, id)] + AdminSteps(0, id, row), [Tick(1)] + UnlinkAll(1, Blobs(row));
    FirstDeletion(s, id);
    SecondDeletion(Run(s, first), id, row);
    RunJoin(s, first, second);
    WrittenOnceThen(s, first + second, FinishAdminDelete(1), id);
    UnlinksOfTwo(0, Blobs(row));
    UnlinksOfTwo(1, Blobs(row));
    steps := first + second + [FinishAdminDelete(1)];
    TwoJobs(s, steps, id, width);
  }

  /** From a service at rest, for any row not in the trash: no run with at most `width` operations about to
      trash the row at a time dates it twice, exactly when `width` is at most 1. */
  lemma {:induction false} TrashedAtWrittenOnceExactlyWhenSerial(s: Sys, id: string, width: nat)
    requires s.jobs == map[] && s.rows.Keys <= s.used && id in s.rows && !s.rows[id].isTrashed
    ensures (forall steps | AtMost(s, steps, id, width) :: WrittenOnce(s, steps, id)) <==> width <= 1
  {
    if width <= 1 {
      forall steps | AtMost(s, steps, id, width) ensures WrittenOnce(s, steps, id) {
        FewerIsAtMost(s, steps, id, width);
        SerialWritesOnce(s, steps, id);
      }
    } else {
      var steps := OverlapRedates(s, id, width);
    }
  }

  lemma {:induction false} FewerIsAtMost(s: Sys, steps: seq<Step>, id: string, width: nat)
    requires AtMost(s, steps, id, width) && width <= 1
    ensures AtMost(s, steps, id, 1)
    decreases |steps|
  {
    if steps != [] {
      FewerIsAtMost(Next(s, steps[0]), steps[1..], id, width);
    }
  }
}
