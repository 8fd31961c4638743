/** One share link under overlapping requests. Each request is two atomic segments, split at the
    database awaits: read and validate the row, then write the count that was read plus one. */
module ShareLinkRuns {
  import opened Wrappers
  import opened ShareLinks
  import opened Multichoose

  /** What one of the k request slots is doing. */
  datatype Slot = Idle | Downloading(snapshot: ShareLink) | Viewing(snapshot: ShareLink)

  /** `grants` counts completed downloads; the service itself does not keep it. */
  datatype Sys = Sys(row: ShareLink, now: int, slots: seq<Slot>, grants: nat)

  datatype Step =
    | BeginDownload(slot: nat, password: Option<string>)
    | EndDownload(slot: nat)
    | BeginView(slot: nat, password: Option<string>)
    | EndView(slot: nat)
    | Fail(slot: nat)  // the request dies before its write
    | Revoke
    | Tick(elapsed: nat)

  function Init(link: ShareLink, now: int, k: nat): Sys {
    Sys(link, now, seq(k, _ => Idle), 0)
  }

  /** A step that is not enabled (or a request that is refused) leaves the state alone. */
  function Next(s: Sys, step: Step): Sys {
    match step
    case BeginDownload(i, password) =>
      if i < |s.slots| && s.slots[i].Idle? && Refusal(s.row, password, true, s.now).None?
      then s.(slots := s.slots[i := Downloading(s.row)]) else s
    case EndDownload(i) =>
      if i < |s.slots| && s.slots[i].Downloading?
      then s.(row := AfterDownload(s.row, s.slots[i].snapshot, s.now), slots := s.slots[i := Idle],
        grants := s.grants + 1)
      else s
    case BeginView(i, password) =>
      if i < |s.slots| && s.slots[i].Idle? && Refusal(s.row, password, false, s.now).None?
      then s.(slots := s.slots[i := Viewing(s.row)]) else s
    case EndView(i) =>
      if i < |s.slots| && s.slots[i].Viewing?
      then s.(row := AfterView(s.row, s.slots[i].snapshot, s.now), slots := s.slots[i := Idle]) else s
    case Fail(i) =>
      if i < |s.slots| then s.(slots := s.slots[i := Idle]) else s
    case Revoke => s.(row := s.row.(isActive := false))
    case Tick(elapsed) => s.(now := s.now + elapsed)
  }

  function Run(s: Sys, steps: seq<Step>): Sys
    decreases |steps|
  {
    if steps == [] then s else Run(Next(s, steps[0]), steps[1..])
  }

  lemma {:induction false} RunAppend(s: Sys, a: seq<Step>, b: seq<Step>)
    ensures Run(s, a + b) == Run(Run(s, a), b)
    decreases |a|
  {
    if a == [] {
      assert a + b == b;
    } else {
      assert (a + b)[0] == a[0] && (a + b)[1..] == a[1..] + b;
      RunAppend(Next(s, a[0]), a[1..], b);
    }
  }

  // ---- The stored count never passes the limit, however requests overlap. ----

  ghost predicate Bounded(s: Sys, limit: nat) {
    && Limit(s.row) == Some(limit)
    && s.row.downloadCount <= limit
    && forall i | 0 <= i < |s.slots| && s.slots[i].Downloading? :: s.slots[i].snapshot.downloadCount < limit
  }

  lemma {:induction false} BoundedRun(s: Sys, steps: seq<Step>, limit: nat)
    requires Bounded(s, limit)
    ensures Bounded(Run(s, steps), limit) && |Run(s, steps).slots| == |s.slots|
    decreases |steps|
  {
    if steps != [] {
      BoundedRun(Next(s, steps[0]), steps[1..], limit);
    }
  }

  lemma StoredCountNeverExceedsLimit(link: ShareLink, now: int, k: nat, steps: seq<Step>, limit: nat)
    requires Limit(link) == Some(limit) && link.downloadCount <= limit
    ensures Run(Init(link, now, k), steps).row.downloadCount <= limit
  {
    BoundedRun(Init(link, now, k), steps, limit);
  }

  /** Whatever visitors do, a link goes on serving the file it was made for, to its tenant, under its token,
      its password, its limit and its expiry. */
  lemma NewLinkServesItsFile(
      id: string, tenantId: string, fileId: string, shareToken: string, password: Option<string>,
      expiresAt: Option<int>, maxDownloads: Option<nat>, now: int, k: nat, steps: seq<Step>)
    ensures
      var link := NewLink(id, tenantId, fileId, shareToken, password, expiresAt, maxDownloads);
      var row := Run(Init(link, now, k), steps).row;
      && row.fileId == fileId && row.tenantId == tenantId && row.id == id && row.shareToken == shareToken
      && row.expiresAt == expiresAt && row.maxDownloads == link.maxDownloads && row.passwordHash == link.passwordHash
  {
    RunKeepsTerms(Init(NewLink(id, tenantId, fileId, shareToken, password, expiresAt, maxDownloads), now, k), steps);
  }

  lemma {:induction false} RunKeepsTerms(s: Sys, steps: seq<Step>)
    ensures
      var row := Run(s, steps).row;
      row == s.row.(downloadCount := row.downloadCount, viewCount := row.viewCount, isActive := row.isActive,
                    lastAccessedAt := row.lastAccessedAt)
    decreases |steps|
  {
    if steps != [] {
      RunKeepsTerms(Next(s, steps[0]), steps[1..]);
    }
  }

  /** A request with nothing in between does to the row what the table's operation does: a view is granted
      whatever has been downloaded, a download also needs the limit not to be used up, and one that dies
      midway leaves no trace. */
  lemma RequestsAlone(s: Sys, i: nat, password: Option<string>)
    requires i < |s.slots| && s.slots[i].Idle?
    ensures
      var row, viewed := s.row, Next(Next(s, BeginView(i, password)), EndView(i));
      viewed == if ViewAccepted(row, password, s.now)
                then s.(row := row.(viewCount := row.viewCount + 1, lastAccessedAt := Some(s.now))) else s
    ensures
      var row, downloaded := s.row, Next(Next(s, BeginDownload(i, password)), EndDownload(i));
      downloaded == if ViewAccepted(row, password, s.now) && !UsedUp(row)
                    then s.(row := row.(downloadCount := row.downloadCount + 1, lastAccessedAt := Some(s.now)),
                            grants := s.grants + 1) else s
    ensures Next(Next(s, BeginView(i, password)), Fail(i)) == s == Next(Next(s, BeginDownload(i, password)), Fail(i))
  {
    ViewAcceptedExactlyWhen(s.row, password, s.now);
    AcceptedExactlyWhen(s.row, password, s.now);
    assert s.slots[i := Viewing(s.row)][i := Idle] == s.slots == s.slots[i := Downloading(s.row)][i := Idle];
  }

  // ---- The exact worst case, first over schedules in which no request dies midway. ----

  /** Number of slots holding a download that read the value `v`. */
  function Holding(slots: seq<Slot>, v: nat): nat {
    if slots == [] then 0
    else (if slots[0].Downloading? && slots[0].snapshot.downloadCount == v then 1 else 0) + Holding(slots[1..], v)
  }

  /** Number of slots not holding a download. */
  function Spare(slots: seq<Slot>): nat {
    if slots == [] then 0 else (if slots[0].Downloading? then 0 else 1) + Spare(slots[1..])
  }

  lemma {:induction false} UpdateCounts(slots: seq<Slot>, i: nat, x: Slot)
    requires i < |slots|
    ensures Spare(slots[i := x]) + (if slots[i].Downloading? then 0 else 1)
         == Spare(slots) + (if x.Downloading? then 0 else 1)
    ensures forall v: nat ::
      Holding(slots[i := x], v) + (if slots[i].Downloading? && slots[i].snapshot.downloadCount == v then 1 else 0)
      == Holding(slots, v) + (if x.Downloading? && x.snapshot.downloadCount == v then 1 else 0)
  {
    if i == 0 {
      assert slots[0 := x][1..] == slots[1..];
    } else {
      UpdateCounts(slots[1..], i - 1, x);
      assert slots[i := x][1..] == slots[1..][i - 1 := x];
    }
  }

  /** Histogram of the slots over the values 0..limit; a spare slot would read the current count. */
  function Histogram(slots: seq<Slot>, count: nat, limit: nat): (h: seq<nat>)
    ensures |h| == limit + 1
    ensures forall v: nat | v <= limit :: h[v] == Holding(slots, v) + if v == count then Spare(slots) else 0
  {
    seq(limit + 1, (v: nat) => Holding(slots, v) + if v == count then Spare(slots) else 0)
  }

  lemma {:induction false} HistogramTotal(slots: seq<Slot>, count: nat, limit: nat)
    requires count <= limit
    requires forall i | 0 <= i < |slots| && slots[i].Downloading? :: slots[i].snapshot.downloadCount < limit
    ensures Sum(Histogram(slots, count, limit)) == |slots|
  {
    var h := Histogram(slots, count, limit);
    if slots == [] {
      SumZeros(h);
    } else {
      HistogramTotal(slots[1..], count, limit);
      var tail := Histogram(slots[1..], count, limit);
      var v := if slots[0].Downloading? then slots[0].snapshot.downloadCount else count;
      SumBump(tail, v);
      forall u: nat | u <= limit ensures h[u] == tail[v := tail[v] + 1][u] {
      }
      assert h == tail[v := tail[v] + 1];
    }
  }

  /** How many more downloads the slots can still obtain, at most. */
  function Potential(s: Sys, limit: nat): nat {
    Rank(Histogram(s.slots, s.row.downloadCount, limit))
  }

  /** Completing a download strictly lowers the potential, even when it rewinds the stored count. */
  lemma EndDownloadDrops(s: Sys, i: nat, limit: nat)
    requires Bounded(s, limit)
    requires i < |s.slots| && s.slots[i].Downloading?
    ensures Potential(Next(s, EndDownload(i)), limit) < Potential(s, limit)
  {
    var s' := Next(s, EndDownload(i));
    var read, count := s.slots[i].snapshot.downloadCount, s.row.downloadCount;
    UpdateCounts(s.slots, i, Idle);
    var h, h' := Histogram(s.slots, count, limit), Histogram(s'.slots, read + 1, limit);
    HistogramTotal(s.slots, count, limit);
    HistogramTotal(s'.slots, read + 1, limit);
    var d := if count < read && Spare(s.slots) > 0 then count else read;
    assert h[..d] == h'[..d];
    assert h'[d] < h[d];
    RankDrops(h, h', d);
  }

  lemma StepPotential(s: Sys, step: Step, limit: nat)
    requires Bounded(s, limit) && !step.Fail?
    ensures Next(s, step).grants + Potential(Next(s, step), limit) <= s.grants + Potential(s, limit)
  {
    var s' := Next(s, step);
    if step.EndDownload? && step.slot < |s.slots| && s.slots[step.slot].Downloading? {
      EndDownloadDrops(s, step.slot, limit);
    } else if (step.BeginDownload? || step.BeginView? || step.EndView?) && s' != s {
      UpdateCounts(s.slots, step.slot, s'.slots[step.slot]);
      assert Histogram(s'.slots, s'.row.downloadCount, limit) == Histogram(s.slots, s.row.downloadCount, limit);
    }
  }

  ghost predicate NoFailures(steps: seq<Step>) {
    forall i | 0 <= i < |steps| :: !steps[i].Fail?
  }

  lemma {:induction false} RunPotential(s: Sys, steps: seq<Step>, limit: nat)
    requires Bounded(s, limit) && NoFailures(steps)
    ensures Run(s, steps).grants + Potential(Run(s, steps), limit) <= s.grants + Potential(s, limit)
    decreases |steps|
  {
    if steps != [] {
      StepPotential(s, steps[0], limit);
      BoundedRun(s, [steps[0]], limit);
      assert Run(s, [steps[0]]) == Next(s, steps[0]) by { assert [steps[0]][1..] == []; }
      RunPotential(Next(s, steps[0]), steps[1..], limit);
    }
  }

  lemma {:induction false} IdleCounts(slots: seq<Slot>)
    requires forall i | 0 <= i < |slots| :: slots[i].Idle?
    ensures Spare(slots) == |slots|
    ensures forall v: nat :: Holding(slots, v) == 0
  {
    if slots != [] {
      IdleCounts(slots[1..]);
    }
  }

  /** What a link with no request in progress can still grant, at most. */
  lemma FreshPotential(link: ShareLink, now: int, k: nat, limit: nat)
    requires link.downloadCount <= limit && Limit(link) == Some(limit)
    ensures Potential(Init(link, now, k), limit) + 1 == Choose(limit - link.downloadCount + k, k)
  {
    var slots := Init(link, now, k).slots;
    IdleCounts(slots);
    RankAt(Histogram(slots, link.downloadCount, limit), link.downloadCount);
    MultisetsAreChoices(limit - link.downloadCount, k);
  }

  // ---- A request that dies before its write leaves no trace, so it can be erased. ----

  /** The state with the requests in these slots taken out. */
  function Blank(s: Sys, doomed: set<nat>): Sys {
    s.(slots := seq(|s.slots|, i requires 0 <= i < |s.slots| => if i in doomed then Idle else s.slots[i]))
  }

  /** `kept` is a schedule in which no request dies, with the same row and the same grants at the end;
      it starts without the requests in `doomed`, which die in `steps`. */
  ghost predicate Erases(s: Sys, steps: seq<Step>, kept: seq<Step>, doomed: set<nat>) {
    && NoFailures(kept)
    && Run(Blank(s, doomed), kept).grants == Run(s, steps).grants
    && Run(Blank(s, doomed), kept).row == Run(s, steps).row
  }

  /** The step stays in the schedule. */
  lemma KeepStep(s: Sys, step: Step, rest: seq<Step>, kept: seq<Step>, doomed: set<nat>, doomed': set<nat>)
    requires Erases(Next(s, step), rest, kept, doomed') && !step.Fail?
    requires Next(Blank(s, doomed), step) == Blank(Next(s, step), doomed')
    ensures Erases(s, [step] + rest, [step] + kept, doomed)
  {
    RunFirst(s, step, rest);
    RunFirst(Blank(s, doomed), step, kept);
  }

  /** The step belongs to a request that dies, is that death, or does nothing. */
  lemma DropStep(s: Sys, step: Step, rest: seq<Step>, kept: seq<Step>, doomed: set<nat>, doomed': set<nat>)
    requires Erases(Next(s, step), rest, kept, doomed')
    requires Blank(s, doomed) == Blank(Next(s, step), doomed')
    ensures Erases(s, [step] + rest, kept, doomed)
  {
    RunFirst(s, step, rest);
  }

  lemma EraseStep(s: Sys, step: Step, rest: seq<Step>, kept': seq<Step>, doomed': set<nat>)
      returns (kept: seq<Step>, doomed: set<nat>)
    requires Erases(Next(s, step), rest, kept', doomed')
    ensures Erases(s, [step] + rest, kept, doomed)
  {
    kept, doomed := kept', doomed';
    if step.Revoke? || step.Tick? {
      kept := [step] + kept';
      KeepStep(s, step, rest, kept', doomed, doomed');
    } else if Next(s, step) == s {
      DropStep(s, step, rest, kept', doomed, doomed');
    } else if step.Fail? {
      doomed := doomed' + {step.slot};
      DropStep(s, step, rest, kept', doomed, doomed');
    } else if (step.BeginDownload? || step.BeginView?) && step.slot in doomed' {
      DropStep(s, step, rest, kept', doomed, doomed');
    } else {
      doomed := doomed' - {step.slot};
      kept := [step] + kept';
      KeepStep(s, step, rest, kept', doomed, doomed');
    }
  }

  lemma {:induction false} Erase(s: Sys, steps: seq<Step>) returns (kept: seq<Step>, doomed: set<nat>)
    ensures Erases(s, steps, kept, doomed)
    decreases |steps|
  {
    if steps == [] {
      kept, doomed := [], {};
      assert Blank(s, {}).slots == s.slots;
    } else {
      var kept', doomed' := Erase(Next(s, steps[0]), steps[1..]);
      assert steps == [steps[0]] + steps[1..];
      kept, doomed := EraseStep(s, steps[0], steps[1..], kept', doomed');
    }
  }

  ghost predicate SameWithoutFailures(s: Sys, steps: seq<Step>, kept: seq<Step>) {
    NoFailures(kept) && Run(s, kept).grants == Run(s, steps).grants && Run(s, kept).row == Run(s, steps).row
  }

  /** Every run ends with the row and the grants of a run in which no request dies. */
  lemma FailuresLeaveNoTrace(link: ShareLink, now: int, k: nat, steps: seq<Step>)
    ensures exists kept :: SameWithoutFailures(Init(link, now, k), steps, kept)
  {
    var kept, doomed := Erase(Init(link, now, k), steps);
    assert Blank(Init(link, now, k), doomed).slots == Init(link, now, k).slots;
    assert SameWithoutFailures(Init(link, now, k), steps, kept);
  }

  /** However k slots interleave and whichever requests die, a link with m downloads left grants fewer than
      (m + k choose k). */
  lemma GrantsBelowChoose(link: ShareLink, now: int, k: nat, steps: seq<Step>, limit: nat)
    requires link.downloadCount <= limit && Limit(link) == Some(limit)
    ensures Run(Init(link, now, k), steps).grants < Choose(limit - link.downloadCount + k, k)
  {
    FailuresLeaveNoTrace(link, now, k, steps);
    var kept :| SameWithoutFailures(Init(link, now, k), steps, kept);
    FreshPotential(link, now, k, limit);
    RunPotential(Init(link, now, k), kept, limit);
  }

  /** The worst schedule: hold one stale read back while the other slots use up the link, then
      release it, which rewinds the stored count, and start again from there. */
  function WorstSchedule(remaining: nat, spare: nat, password: Option<string>): (steps: seq<Step>)
    ensures NoFailures(steps)
    decreases remaining + spare
  {
    if remaining == 0 || spare == 0 then []
    else
      [BeginDownload(spare - 1, password)] + WorstSchedule(remaining, spare - 1, password)
      + [EndDownload(spare - 1)] + WorstSchedule(remaining - 1, spare, password)
  }

  /** The visitor has the password, if there is one, and `spare` slots are free. */
  ghost predicate Open(s: Sys, spare: nat, limit: nat, password: Option<string>) {
    && Bounded(s, limit)
    && s.row.isActive && PasswordAccepted(s.row, password)
    && (s.row.expiresAt.Some? ==> s.now <= s.row.expiresAt.value)
    && spare <= |s.slots| && forall i | 0 <= i < spare :: s.slots[i].Idle?
  }

  /** `s'` differs from `s` only in its counters. */
  ghost predicate SameButCounters(s: Sys, s': Sys) {
    && s' == s.(grants := s'.grants, row := s'.row)
    && s'.row == s.row.(downloadCount := s'.row.downloadCount, lastAccessedAt := s'.row.lastAccessedAt)
  }

  /** From `s`, the worst schedule for the remaining downloads ends in `s'` with this many grants. */
  ghost predicate Attains(s: Sys, s': Sys, spare: nat, limit: nat)
    requires s.row.downloadCount <= limit
  {
    && s'.grants + 1 == s.grants + Multisets(limit - s.row.downloadCount + 1, spare)
    && SameButCounters(s, s') && Bounded(s', limit)
  }

  /** The two halves of the schedule and the write between them. */
  lemma AttainsTogether(s: Sys, s2: Sys, s3: Sys, s4: Sys, spare: nat, limit: nat)
    requires spare > 0 && s.row.downloadCount < limit && s3.row.downloadCount <= limit
    requires SameButCounters(s, s3) && s3.row.downloadCount == s.row.downloadCount + 1 && s3.grants == s2.grants + 1
    requires s2.grants + 1 == s.grants + Multisets(limit - s.row.downloadCount + 1, spare - 1)
    requires Attains(s3, s4, spare, limit)
    ensures Attains(s, s4, spare, limit)
  {
    var n := limit - s.row.downloadCount;
    assert Multisets(n + 1, spare) == Multisets(n, spare) + Multisets(n + 1, spare - 1);
  }

  /** With no download left or no free slot, the worst schedule is empty and grants nothing. */
  lemma NothingAttains(s: Sys, spare: nat, limit: nat)
    requires Bounded(s, limit) && (s.row.downloadCount == limit || spare == 0)
    ensures Attains(s, s, spare, limit)
  {
    OneValue(spare);
  }

  lemma WorstScheduleNests(s: Sys, remaining: nat, spare: nat, password: Option<string>)
    requires remaining > 0 && spare > 0
    ensures var s2 := Run(Next(s, BeginDownload(spare - 1, password)), WorstSchedule(remaining, spare - 1, password));
      Run(s, WorstSchedule(remaining, spare, password))
        == Run(Next(s2, EndDownload(spare - 1)), WorstSchedule(remaining - 1, spare, password))
  {
    RunNested(s, BeginDownload(spare - 1, password), WorstSchedule(remaining, spare - 1, password),
              EndDownload(spare - 1), WorstSchedule(remaining - 1, spare, password));
  }

  lemma {:induction false} WorstScheduleRuns(s: Sys, spare: nat, limit: nat, password: Option<string>)
    requires Open(s, spare, limit, password)
    ensures Attains(s, Run(s, WorstSchedule(limit - s.row.downloadCount, spare, password)), spare, limit)
    decreases limit - s.row.downloadCount + spare
  {
    var remaining := limit - s.row.downloadCount;
    if remaining == 0 || spare == 0 {
      NothingAttains(s, spare, limit);
    } else {
      var i := spare - 1;
      ReadHeldBack(s, i, limit, password);
      var s1 := Next(s, BeginDownload(i, password));
      WorstScheduleRuns(s1, i, limit, password);
      var s2 := Run(s1, WorstSchedule(remaining, i, password));
      StaleWrite(s, s2, i, limit, password);
      var s3 := Next(s2, EndDownload(i));
      WorstScheduleRuns(s3, spare, limit, password);
      WorstScheduleNests(s, remaining, spare, password);
      AttainsTogether(s, s2, s3, Run(s3, WorstSchedule(remaining - 1, spare, password)), spare, limit);
    }
  }

  lemma ReadHeldBack(s: Sys, i: nat, limit: nat, password: Option<string>)
    requires Open(s, i + 1, limit, password) && s.row.downloadCount < limit
    ensures Next(s, BeginDownload(i, password)) == s.(slots := s.slots[i := Downloading(s.row)])
    ensures Open(Next(s, BeginDownload(i, password)), i, limit, password)
  {
    AcceptedExactlyWhen(s.row, password, s.now);
  }

  lemma StaleWrite(s: Sys, s2: Sys, i: nat, limit: nat, password: Option<string>)
    requires Open(s, i + 1, limit, password) && s.row.downloadCount < limit && Bounded(s2, limit)
    requires SameButCounters(s.(slots := s.slots[i := Downloading(s.row)]), s2)
    ensures var s3 := Next(s2, EndDownload(i));
            && Open(s3, i + 1, limit, password) && SameButCounters(s, s3)
            && s3.row.downloadCount == s.row.downloadCount + 1 && s3.grants == s2.grants + 1
  {
    assert s2.slots[i := Idle] == s.slots;
  }

  lemma RunNested(s: Sys, a: Step, inner: seq<Step>, b: Step, outer: seq<Step>)
    ensures Run(s, [a] + inner + [b] + outer) == Run(Next(Run(Next(s, a), inner), b), outer)
  {
    assert [a] + inner + [b] + outer == [a] + (inner + ([b] + outer));
    RunFirst(s, a, inner + ([b] + outer));
    RunAppend(Next(s, a), inner, [b] + outer);
    RunFirst(Run(Next(s, a), inner), b, outer);
  }

  lemma RunFirst(s: Sys, step: Step, rest: seq<Step>)
    ensures Run(s, [step] + rest) == Run(Next(s, step), rest)
  {
    assert ([step] + rest)[0] == step && ([step] + rest)[1..] == rest;
  }

  /** The bound is attained: it is the exact worst case for every link, limit and width. */
  lemma WorstCaseAttained(link: ShareLink, now: int, k: nat, limit: nat, password: Option<string>)
    requires Open(Init(link, now, k), k, limit, password)
    ensures var left := limit - link.downloadCount;
      Run(Init(link, now, k), WorstSchedule(left, k, password)).grants + 1 == Choose(left + k, k)
  {
    WorstScheduleRuns(Init(link, now, k), k, limit, password);
    MultisetsAreChoices(limit - link.downloadCount, k);
  }

  /** The download limit holds on every schedule exactly when downloads never overlap, or none is left. */
  lemma LimitHonouredExactlyWhenSerial(link: ShareLink, now: int, k: nat, limit: nat, password: Option<string>)
    requires Open(Init(link, now, k), k, limit, password)
    ensures (forall steps :: link.downloadCount + Run(Init(link, now, k), steps).grants <= limit)
       <==> k <= 1 || link.downloadCount == limit
  {
    var left := limit - link.downloadCount;
    MultisetsAreChoices(left, k);
    if k <= 1 || left == 0 {
      MultisetsOfOne(left + 1);
      OneValue(k);
      forall steps ensures link.downloadCount + Run(Init(link, now, k), steps).grants <= limit {
        GrantsBelowChoose(link, now, k, steps, limit);
      }
    } else {
      WorstCaseAttained(link, now, k, limit, password);
      MultisetsGrow(left + 1, k);
    }
  }

  /** A coarser closed form: with m downloads left, at most k + k^2 + ... + k^m. */
  lemma GrantsBelowGeometric(link: ShareLink, now: int, k: nat, steps: seq<Step>, limit: nat)
    requires link.downloadCount <= limit && Limit(link) == Some(limit)
    ensures Run(Init(link, now, k), steps).grants <= Geometric(k, limit - link.downloadCount)
  {
    var left := limit - link.downloadCount;
    GrantsBelowChoose(link, now, k, steps, limit);
    MultisetsAreChoices(left, k);
    MultisetsBelowGeometric(left, k);
  }

  // ---- Revocation and expiry. ----

  /** Once a link is revoked or has expired, it stays so, and only the downloads already past their checks
      can still be granted. */
  lemma {:induction false} ClosedLinkDrains(s: Sys, steps: seq<Step>)
    requires !s.row.isActive || Expired(s.row, s.now)
    ensures !s.row.isActive ==> !Run(s, steps).row.isActive
    ensures Expired(s.row, s.now) ==> Expired(Run(s, steps).row, Run(s, steps).now)
    ensures Run(s, steps).grants + Spare(s.slots) <= s.grants + Spare(Run(s, steps).slots)
    ensures |Run(s, steps).slots| == |s.slots| && Spare(Run(s, steps).slots) <= |s.slots|
    decreases |steps|
  {
    SpareBound(s.slots);
    if steps != [] {
      var s' := Next(s, steps[0]);
      if s'.slots != s.slots {
        UpdateCounts(s.slots, steps[0].slot, s'.slots[steps[0].slot]);
      }
      ClosedLinkDrains(s', steps[1..]);
    }
  }

  lemma {:induction false} SpareBound(slots: seq<Slot>)
    ensures Spare(slots) <= |slots|
  {
    if slots != [] {
      SpareBound(slots[1..]);
    }
  }

  /** At most one further grant per download in flight when the link was revoked. */
  lemma GrantsAfterRevoke(s: Sys, steps: seq<Step>)
    ensures Run(Next(s, Revoke), steps).grants <= s.grants + |s.slots| - Spare(s.slots)
  {
    ClosedLinkDrains(Next(s, Revoke), steps);
  }

  /** And at most one per download in flight when it expired. */
  lemma GrantsAfterExpiry(s: Sys, elapsed: nat, steps: seq<Step>)
    requires s.row.expiresAt.Some? && s.row.expiresAt.value < s.now + elapsed
    ensures Run(Next(s, Tick(elapsed)), steps).grants <= s.grants + |s.slots| - Spare(s.slots)
  {
    ClosedLinkDrains(Next(s, Tick(elapsed)), steps);
  }
}
