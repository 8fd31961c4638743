/** The storage quota under overlapping uploads. checkStorageQuota reads the usage and compares; the
    row that uses the space is created only after the blobs are written, several awaits later. */
module Quota {
  import opened Wrappers
  import opened Arithmetic
  import opened FileModel
  import opened FileRuns
  import opened FileAging
  import opened FileScripts
  import opened FileUsage
  import opened MapSums

  datatype Category =
    | QuoteFile | Invoice | License | Insurance | Logo | Contract
    | Receipt | Photo | Report | Signature | Misc

  const MB: nat := 1024 * 1024
  const LARGEST: nat := 25 * MB

  function MaxSize(category: Category): nat {
    match category
    case Logo => 5 * MB
    case Contract => 15 * MB
    case Receipt => LARGEST
    case Photo => 20 * MB
    case Report => LARGEST
    case Signature => 2 * MB
    case Misc => 20 * MB
    case _ => 10 * MB
  }

  /** Receipts and reports may be largest, signatures are smallest, and no other file exceeds 20 MB. */
  lemma SizeClasses(category: Category)
    ensures MaxSize(category) == 25 * MB <==> category in {Receipt, Report}
    ensures MaxSize(category) == 20 * MB <==> category in {Photo, Misc}
    ensures MaxSize(category) == 15 * MB <==> category == Contract
    ensures MaxSize(category) == 10 * MB <==> category in {QuoteFile, Invoice, License, Insurance}
    ensures MaxSize(category) == 5 * MB <==> category == Logo
    ensures MaxSize(category) == 2 * MB <==> category == Signature
  {
  }

  /** The plan's max_storage_gb in bytes, or None when the plan sets no limit. */
  type PlanLimit = Option<real>

  predicate QuotaAllows(limit: PlanLimit, used: nat, size: nat) {
    limit.None? || (used + size) as real <= limit.value
  }

  /** The tenant's uploads between their quota check and their row, with the size that was checked. */
  datatype QSys = QSys(files: Sys, pending: map<nat, nat>)

  datatype QStep =
    | Check(j: nat, category: Category, size: nat)
    | Abandon(j: nat)        // dies between its check and its first blob
    | Begin(j: nat, id: string, fileId: string, sizeBytes: nat, entityId: Option<string>,
            storagePath: string, thumbnailPath: Option<string>)
    | Other(step: Step)      // everything else, including other tenants' uploads

  /** `width` uploads may overlap; image processing may enlarge a file by at most `growth` bytes. */
  datatype Setup = Setup(tenantId: string, limit: PlanLimit, width: nat, growth: nat)

  function Without(pending: map<nat, nat>, j: nat): map<nat, nat> {
    map i | i in pending && i != j :: pending[i]
  }

  /** The first step of an operation. */
  predicate TakesNumber(step: Step) {
    || step.StartUpload? || step.ReadLinks? || step.ScanTrash? || step.ScanPurge? || step.StartDelete?
    || step.StartAdminDelete?
  }

  /** A step of another operation; request numbers of pending uploads are not handed out again. */
  predicate Admissible(c: Setup, q: QSys, step: Step) {
    && !(step.StartUpload? && step.tenantId == c.tenantId)
    && !(TakesNumber(step) && step.j in q.pending)
  }

  /** Creating the row, or dying, ends an upload. */
  function Ends(q: QSys, step: Step): bool {
    (step.CreateRow? || step.Crash?) && Next(q.files, step) != q.files
  }

  ghost function QNext(c: Setup, q: QSys, step: QStep): QSys {
    match step
    case Check(j, category, size) =>
      if j in q.pending || j in q.files.jobs || |q.pending| >= c.width || size > MaxSize(category) then q
      else if !QuotaAllows(c.limit, Usage(q.files.rows, c.tenantId), size) then q
      else q.(pending := q.pending[j := size])
    case Abandon(j) => if j in q.files.jobs then q else q.(pending := Without(q.pending, j))
    case Begin(j, id, fileId, sizeBytes, entityId, storagePath, thumbnailPath) =>
      if j !in q.pending || sizeBytes > q.pending[j] + c.growth then q
      else
        var start := StartUpload(j, id, fileId, c.tenantId, sizeBytes, entityId, storagePath, thumbnailPath);
        q.(files := Next(q.files, start))
    case Other(step) =>
      if !Admissible(c, q, step) then q
      else QSys(Next(q.files, step), if Ends(q, step) then Without(q.pending, step.j) else q.pending)
  }

  /** An upload that dies before its first blob leaves everything as it was before its check. */
  lemma DyingAfterTheCheck(c: Setup, q: QSys, j: nat, category: Category, size: nat)
    requires j !in q.pending && j !in q.files.jobs
    ensures QNext(c, QNext(c, q, Check(j, category, size)), Abandon(j)) == q
  {
    assert Without(q.pending[j := size], j) == q.pending && Without(q.pending, j) == q.pending;
  }

  /** An upload past its check begins as every upload of its row does. */
  lemma BeginsLikeTheUpload(c: Setup, q: QSys, j: nat, id: string, row: FileRow)
    requires j in q.pending && row.sizeBytes <= q.pending[j] + c.growth && row.tenantId == c.tenantId
    ensures
      var begin := Begin(j, id, row.fileId, row.sizeBytes, row.entityId, row.storagePath, row.thumbnailPath);
      QNext(c, q, begin) == q.(files := Next(q.files, UploadSteps(j, id, row)[0]))
  {
  }

  ghost function QRun(c: Setup, q: QSys, steps: seq<QStep>): QSys
    decreases |steps|
  {
    if steps == [] then q else QRun(c, QNext(c, q, steps[0]), steps[1..])
  }

  // ---- Safety. ----

  /** Space the pending uploads may still take. */
  ghost function Reserved(c: Setup, pending: map<nat, nat>): nat {
    Total(Charges(c, pending))
  }

  function Charges(c: Setup, pending: map<nat, nat>): map<nat, nat> {
    map j | j in pending :: pending[j] + c.growth
  }

  ghost predicate UploadsPending(c: Setup, q: QSys) {
    forall j | j in q.files.jobs && q.files.jobs[j].Upload? && q.files.jobs[j].row.tenantId == c.tenantId ::
      && j in q.pending && q.files.jobs[j].row.sizeBytes <= q.pending[j] + c.growth
      && !q.files.jobs[j].row.isTrashed
  }

  ghost predicate NewRowsActive(s: Sys) {
    forall j | j in s.jobs && s.jobs[j].Upload? :: !s.jobs[j].row.isTrashed
  }

  /** The largest file that can ever pass the checks of a tenant with this limit. */
  function Cap(limit: real): (cap: nat)
    requires limit >= 0.0
    ensures cap as real <= limit && cap <= LARGEST
  {
    if limit >= LARGEST as real then LARGEST else limit.Floor
  }

  /** How far overlapping checks and enlarged images can push a tenant past its limit. */
  function Overshoot(cap: nat, width: nat, growth: nat): nat {
    if width == 0 then 0 else (width - 1) * cap + width * growth
  }

  function OvershootOf(c: Setup): nat
    requires HasLimit(c)
  {
    Overshoot(Cap(c.limit.value), c.width, c.growth)
  }

  predicate HasLimit(c: Setup) {
    c.limit.Some? && c.limit.value >= 0.0
  }

  ghost predicate Within(c: Setup, q: QSys)
    requires HasLimit(c)
  {
    && NamesOk(q.files) && UploadsPending(c, q) && NewRowsActive(q.files)
    && |q.pending| <= c.width && (forall j | j in q.pending :: q.pending[j] <= Cap(c.limit.value))
    && (Usage(q.files.rows, c.tenantId) + Reserved(c, q.pending)) as real <= c.limit.value + OvershootOf(c) as real
  }

  lemma NoRowGainsBytes(s: Sys, step: Step, id: string)
    requires NamesOk(s) && id in Next(s, step).rows && !Next(s, step).rows[id].isTrashed
    requires !(step.CreateRow? && Next(s, step) != s)
    ensures id in s.rows && !s.rows[id].isTrashed
    ensures Next(s, step).rows[id].tenantId == s.rows[id].tenantId
    ensures Next(s, step).rows[id].sizeBytes == s.rows[id].sizeBytes
  {
    RowsKeepIdentity(s, step, id);
  }

  /** Only the creation of a row adds to a tenant's usage. */
  lemma OnlyCreateRowAddsUsage(s: Sys, step: Step, tenantId: string)
    requires NamesOk(s) && !(step.CreateRow? && Next(s, step) != s)
    ensures Usage(Next(s, step).rows, tenantId) <= Usage(s.rows, tenantId)
  {
    var s' := Next(s, step);
    forall id | id in s'.rows && !s'.rows[id].isTrashed
      ensures id in s.rows && !s.rows[id].isTrashed
        && s'.rows[id].tenantId == s.rows[id].tenantId && s'.rows[id].sizeBytes == s.rows[id].sizeBytes
    {
      NoRowGainsBytes(s, step, id);
    }
    UsageShrinks(s.rows, s'.rows, tenantId);
  }

  lemma CreateRowAddsItsSize(s: Sys, j: nat, tenantId: string)
    requires NamesOk(s) && Next(s, CreateRow(j)) != s && !s.jobs[j].row.isTrashed
    ensures Usage(Next(s, CreateRow(j)).rows, tenantId) == Usage(s.rows, tenantId)
        + if s.jobs[j].row.tenantId == tenantId then s.jobs[j].row.sizeBytes else 0
  {
    UsageAdd(s.rows, s.jobs[j].id, s.jobs[j].row.(createdAt := s.now), tenantId);
  }

  lemma ReservedWithout(c: Setup, pending: map<nat, nat>, j: nat)
    requires j in pending
    ensures Reserved(c, pending) == Reserved(c, Without(pending, j)) + pending[j] + c.growth
    ensures |Without(pending, j)| == |pending| - 1
  {
    TotalWithout(Charges(c, pending), j);
    assert Charges(c, pending) - {j} == Charges(c, Without(pending, j));
    assert Without(pending, j).Keys == pending.Keys - {j};
  }

  /** The most that `n` pending uploads of at most `cap` bytes can hold. */
  function Full(n: nat, cap: nat, growth: nat): nat {
    if n == 0 then 0 else Full(n - 1, cap, growth) + cap + growth
  }

  lemma {:induction false} FullIsProduct(n: nat, cap: nat, growth: nat)
    ensures Full(n, cap, growth) == n * (cap + growth)
  {
    if n > 0 {
      FullIsProduct(n - 1, cap, growth);
    }
  }

  lemma FullIsOvershoot(n: nat, cap: nat, growth: nat)
    requires n > 0
    ensures Full(n, cap, growth) == cap + Overshoot(cap, n, growth)
    ensures Full(n - 1, cap, growth) + growth == Overshoot(cap, n, growth)
  {
    FullIsProduct(n, cap, growth);
    assert n * (cap + growth) == cap + ((n - 1) * cap + n * growth);
  }

  lemma ReservedBound(c: Setup, pending: map<nat, nat>, n: nat, cap: nat)
    requires |pending| <= n && forall j | j in pending :: pending[j] <= cap
    ensures Reserved(c, pending) <= Full(n, cap, c.growth)
  {
    var m := Charges(c, pending);
    assert m.Keys == pending.Keys;
    TotalBound(m, cap + c.growth);
    MulMonotone(|m|, n, cap + c.growth);
    FullIsProduct(n, cap, c.growth);
  }

  lemma CapIsLargest(limit: real, size: nat)
    requires size <= LARGEST && limit >= 0.0 && size as real <= limit
    ensures size <= Cap(limit)
  {
  }

  lemma AddToLimit(limit: real, checked: nat, more: nat)
    requires checked as real <= limit
    ensures (checked + more) as real <= limit + more as real
  {
  }

  lemma CheckReserved(c: Setup, q: QSys, j: nat, size: nat)
    requires HasLimit(c) && j !in q.pending && |q.pending| < c.width && size <= LARGEST
    requires forall i | i in q.pending :: q.pending[i] <= Cap(c.limit.value)
    requires (Usage(q.files.rows, c.tenantId) + size) as real <= c.limit.value
    ensures size <= Cap(c.limit.value) && |q.pending[j := size]| <= c.width
    ensures (Usage(q.files.rows, c.tenantId) + Reserved(c, q.pending[j := size])) as real
            <= c.limit.value + OvershootOf(c) as real
  {
    var cap, pending' := Cap(c.limit.value), q.pending[j := size];
    var used := Usage(q.files.rows, c.tenantId);
    CapIsLargest(c.limit.value, size);
    ReservedBound(c, q.pending, c.width - 1, cap);
    ReservedWithout(c, pending', j);
    assert Without(pending', j) == q.pending;
    FullIsOvershoot(c.width, cap, c.growth);
    assert Reserved(c, pending') <= size + OvershootOf(c);
    AddToLimit(c.limit.value, used + size, OvershootOf(c));
  }

  lemma CheckWithin(c: Setup, q: QSys, j: nat, category: Category, size: nat)
    requires HasLimit(c) && Within(c, q) && QNext(c, q, Check(j, category, size)) != q
    ensures Within(c, QNext(c, q, Check(j, category, size)))
  {
    CheckReserved(c, q, j, size);
  }

  lemma UploadKept(s: Sys, step: Step, j: nat)
    requires !step.StartUpload? && j in Next(s, step).jobs && Next(s, step).jobs[j].Upload?
    ensures j in s.jobs && s.jobs[j].Upload? && Next(s, step).jobs[j].row == s.jobs[j].row
  {
  }

  lemma UploadStep(s: Sys, step: Step, j: nat)
    requires j in Next(s, step).jobs && Next(s, step).jobs[j].Upload?
    ensures j in s.jobs && s.jobs[j].Upload? ==> Next(s, step).jobs[j].row == s.jobs[j].row
    ensures !(j in s.jobs && s.jobs[j].Upload?) ==>
      && step.StartUpload? && step.j == j && j !in s.jobs
      && Next(s, step).jobs[j].row.tenantId == step.tenantId && Next(s, step).jobs[j].row.sizeBytes == step.sizeBytes
      && !Next(s, step).jobs[j].row.isTrashed
  {
    if !step.StartUpload? {
      UploadKept(s, step, j);
    }
  }

  lemma BeginWithin(c: Setup, q: QSys, step: QStep)
    requires HasLimit(c) && Within(c, q) && step.Begin?
    ensures Within(c, QNext(c, q, step))
  {
    var start := StartUpload(step.j, step.id, step.fileId, c.tenantId, step.sizeBytes, step.entityId,
                             step.storagePath, step.thumbnailPath);
    NextNamesOk(q.files, start);
    OnlyCreateRowAddsUsage(q.files, start, c.tenantId);
    var s' := Next(q.files, start);
    forall j | j in s'.jobs && s'.jobs[j].Upload? ensures !s'.jobs[j].row.isTrashed { UploadStep(q.files, start, j); }
  }

  lemma OtherKeepsUploads(c: Setup, q: QSys, step: Step)
    requires UploadsPending(c, q) && NewRowsActive(q.files) && Admissible(c, q, step)
    ensures UploadsPending(c, QNext(c, q, Other(step))) && NewRowsActive(Next(q.files, step))
  {
    var s' := Next(q.files, step);
    forall j | j in s'.jobs && s'.jobs[j].Upload?
      ensures !s'.jobs[j].row.isTrashed
      ensures s'.jobs[j].row.tenantId == c.tenantId ==>
        j in QNext(c, q, Other(step)).pending && s'.jobs[j].row.sizeBytes <= q.pending[j] + c.growth
    {
      UploadStep(q.files, step, j);
      assert Ends(q, step) ==> j != step.j;
    }
  }

  lemma EndsKeepPending(c: Setup, q: QSys, step: Step)
    requires Admissible(c, q, step)
    ensures var pending := QNext(c, q, Other(step)).pending;
      |pending| <= |q.pending| && forall j | j in pending :: j in q.pending && pending[j] == q.pending[j]
  {
    assert forall j: nat :: Without(q.pending, j).Keys == q.pending.Keys - {j};
    if Ends(q, step) && step.j in q.pending {
      ReservedWithout(c, q.pending, step.j);
    }
  }

  /** A row takes up no more than was reserved for it, and what else happens takes up nothing. */
  lemma OtherKeepsSpace(c: Setup, q: QSys, step: Step)
    requires NamesOk(q.files) && UploadsPending(c, q) && NewRowsActive(q.files) && Admissible(c, q, step)
    ensures var q' := QNext(c, q, Other(step));
      Usage(q'.files.rows, c.tenantId) + Reserved(c, q'.pending)
        <= Usage(q.files.rows, c.tenantId) + Reserved(c, q.pending)
  {
    if step.CreateRow? && Next(q.files, step) != q.files {
      CreateRowAddsItsSize(q.files, step.j, c.tenantId);
    } else {
      OnlyCreateRowAddsUsage(q.files, step, c.tenantId);
    }
    if Ends(q, step) {
      if step.j in q.pending {
        ReservedWithout(c, q.pending, step.j);
      } else {
        assert Without(q.pending, step.j) == q.pending;
      }
    }
  }

  lemma OtherWithin(c: Setup, q: QSys, step: Step)
    requires HasLimit(c) && Within(c, q) && Admissible(c, q, step)
    ensures Within(c, QNext(c, q, Other(step)))
  {
    NextNamesOk(q.files, step);
    OtherKeepsUploads(c, q, step);
    EndsKeepPending(c, q, step);
    OtherKeepsSpace(c, q, step);
  }

  lemma AbandonWithin(c: Setup, q: QSys, j: nat)
    requires HasLimit(c) && Within(c, q)
    ensures Within(c, QNext(c, q, Abandon(j)))
  {
    if j in q.pending {
      ReservedWithout(c, q.pending, j);
    } else {
      assert Without(q.pending, j) == q.pending;
    }
  }

  lemma QNextWithin(c: Setup, q: QSys, step: QStep)
    requires HasLimit(c) && Within(c, q)
    ensures Within(c, QNext(c, q, step))
  {
    if QNext(c, q, step) != q {
      match step
      case Check(j, category, size) => CheckWithin(c, q, j, category, size);
      case Abandon(j) => AbandonWithin(c, q, j);
      case Begin(_, _, _, _, _, _, _) => BeginWithin(c, q, step);
      case Other(s) => OtherWithin(c, q, s);
    }
  }

  lemma {:induction false} QRunWithin(c: Setup, q: QSys, steps: seq<QStep>)
    requires HasLimit(c) && Within(c, q)
    ensures Within(c, QRun(c, q, steps))
    decreases |steps|
  {
    if steps != [] {
      QNextWithin(c, q, steps[0]);
      QRunWithin(c, QNext(c, q, steps[0]), steps[1..]);
    }
  }

  /** Nothing is in progress. */
  ghost predicate Calm(q: QSys) {
    q.files.jobs == map[] && q.pending == map[] && q.files.rows.Keys <= q.files.used
  }

  /** Nothing is in progress and the tenant is within its plan. */
  ghost predicate Settled(c: Setup, q: QSys) {
    Calm(q) && c.limit.Some? && Usage(q.files.rows, c.tenantId) as real <= c.limit.value
  }

  /** Whatever overlaps, used bytes plus bytes still reserved stay within the limit plus the overshoot. */
  lemma UsageNeverPassesOvershoot(c: Setup, q: QSys, steps: seq<QStep>)
    requires Settled(c, q)
    ensures var t := QRun(c, q, steps);
      (Usage(t.files.rows, c.tenantId) + Reserved(c, t.pending)) as real <= c.limit.value + OvershootOf(c) as real
  {
    TotalZero(Charges(c, q.pending));
    QRunWithin(c, q, steps);
  }

  // ---- The bound is attained, from every settled state. ----

  lemma QRunCons(c: Setup, q: QSys, step: QStep, rest: seq<QStep>)
    ensures QRun(c, q, [step] + rest) == QRun(c, QNext(c, q, step), rest)
  {
    assert ([step] + rest)[0] == step && ([step] + rest)[1..] == rest;
  }

  lemma {:induction false} QRunJoin(c: Setup, q: QSys, a: seq<QStep>, b: seq<QStep>)
    ensures QRun(c, q, a + b) == QRun(c, QRun(c, q, a), b)
    decreases |a|
  {
    if a == [] {
      assert a + b == b;
    } else {
      assert (a + b)[0] == a[0] && (a + b)[1..] == a[1..] + b;
      QRunJoin(c, QNext(c, q, a[0]), a[1..], b);
    }
  }

  lemma QRunTwo(c: Setup, q: QSys, first: QStep, second: QStep)
    ensures QRun(c, q, [first] + ([second] + [])) == QNext(c, QNext(c, q, first), second)
  {
    QRunCons(c, q, first, [second] + []);
    QRunCons(c, QNext(c, q, first), second, []);
  }

  /** A name no row, blob or earlier upload has. */
  lemma {:induction false} Longest(names: set<string>) returns (n: nat)
    ensures forall name | name in names :: |name| <= n
    decreases |names|
  {
    if name :| name in names {
      var rest := Longest(names - {name});
      n := if |name| > rest then |name| else rest;
    } else {
      n := 0;
    }
  }

  lemma FreshName(s: Sys) returns (name: string)
    ensures name !in s.used && name !in s.owner && name !in s.rows
  {
    var n := Longest(s.used + s.owner.Keys + s.rows.Keys);
    name := seq(n + 1, _ => 'a');
    assert |name| == n + 1;
  }

  // One upload from its first blob to its row

  function PlainRow(c: Setup, s: Sys, name: string, size: nat): FileRow {
    NewRow(name, c.tenantId, size, None, name, None, s.now)
  }

  lemma BeginRun(c: Setup, q: QSys, j: nat, name: string, stored: nat)
    requires q.files.jobs == map[] && j in q.pending && stored <= q.pending[j] + c.growth
    requires name !in q.files.used && name !in q.files.owner
    ensures var q' := QNext(c, q, Begin(j, name, name, stored, None, name, None));
      && q'.pending == q.pending && q'.files.jobs == map[j := Upload(name, PlainRow(c, q.files, name, stored), {name})]
      && q'.files.rows == q.files.rows && q'.files.now == q.files.now && q'.files.used == q.files.used + {name}
  {
    var row := PlainRow(c, q.files, name, stored);
    assert Blobs(row) == {name};
    assert map[j := Upload(name, row, {name})] == q.files.jobs[j := Upload(name, row, {name})];
  }

  lemma BlobWritten(s: Sys, j: nat, row: FileRow)
    requires s.jobs == map[j := Upload(row.fileId, row, {row.storagePath})]
    ensures DoWriteBlob(s, j, row.storagePath)
         == s.(disk := s.disk + {row.storagePath}, jobs := map[j := Upload(row.fileId, row, {})])
  {
    assert {row.storagePath} - {row.storagePath} == {};
  }

  lemma RowStored(s: Sys, j: nat, row: FileRow)
    requires s.jobs == map[j := Upload(row.fileId, row, {})] && row.createdAt == s.now
    ensures DoCreateRow(s, j) == s.(rows := s.rows[row.fileId := row], jobs := map[]) != s
  {
    assert Forget(s.jobs, j) == map[];
  }

  lemma StoreRun(c: Setup, q: QSys, j: nat, row: FileRow)
    requires q.files.jobs == map[j := Upload(row.fileId, row, {row.storagePath})] && row.fileId !in q.files.rows
    requires row.createdAt == q.files.now
    ensures var q' := QNext(c, QNext(c, q, Other(WriteBlob(j, row.storagePath))), Other(CreateRow(j)));
      && q'.files.jobs == map[] && q'.pending == Without(q.pending, j)
      && q'.files.used == q.files.used && q'.files.rows == q.files.rows[row.fileId := row]
  {
    BlobWritten(q.files, j, row);
    RowStored(DoWriteBlob(q.files, j, row.storagePath), j, row);
  }

  /** The upload of request j is stored with `stored` bytes. */
  ghost predicate Stores(c: Setup, q: QSys, j: nat, stored: nat, q': QSys) {
    && q'.files.jobs == map[] && q'.pending == Without(q.pending, j) && q'.files.rows.Keys <= q'.files.used
    && Usage(q'.files.rows, c.tenantId) == Usage(q.files.rows, c.tenantId) + stored
  }

  lemma StoreOne(c: Setup, q: QSys, j: nat, stored: nat) returns (steps: seq<QStep>)
    requires q.files.jobs == map[] && q.files.rows.Keys <= q.files.used
    requires j in q.pending && stored <= q.pending[j] + c.growth
    ensures Stores(c, q, j, stored, QRun(c, q, steps))
  {
    var name := FreshName(q.files);
    var begin, row := Begin(j, name, name, stored, None, name, None), PlainRow(c, q.files, name, stored);
    BeginRun(c, q, j, name, stored);
    StoreRun(c, QNext(c, q, begin), j, row);
    UsageAdd(q.files.rows, name, row, c.tenantId);
    steps := [begin] + ([Other(WriteBlob(j, name))] + ([Other(CreateRow(j))] + []));
    QRunCons(c, q, begin, [Other(WriteBlob(j, name))] + ([Other(CreateRow(j))] + []));
    QRunTwo(c, QNext(c, q, begin), Other(WriteBlob(j, name)), Other(CreateRow(j)));
  }

  /** A check and its upload, with nothing in between. */
  lemma UploadAlone(c: Setup, q: QSys, size: nat, stored: nat) returns (steps: seq<QStep>)
    requires Calm(q) && c.limit.Some? && c.width > 0 && size <= LARGEST && stored <= size + c.growth
    requires (Usage(q.files.rows, c.tenantId) + size) as real <= c.limit.value
    ensures Calm(QRun(c, q, steps))
    ensures Usage(QRun(c, q, steps).files.rows, c.tenantId) == Usage(q.files.rows, c.tenantId) + stored
  {
    var check := Check(0, Receipt, size);
    var q1 := QNext(c, q, check);
    assert q1 == q.(pending := map[0 := size]);
    var rest := StoreOne(c, q1, 0, stored);
    steps := [check] + rest;
    QRunCons(c, q, check, rest);
    assert Without(q1.pending, 0) == map[];
  }

  /** Any amount that fits can be stored, one file after the other. */
  lemma {:induction false} Fill(c: Setup, q: QSys, amount: nat) returns (steps: seq<QStep>)
    requires Calm(q) && c.limit.Some? && c.width > 0
    requires (Usage(q.files.rows, c.tenantId) + amount) as real <= c.limit.value
    ensures Calm(QRun(c, q, steps))
    ensures Usage(QRun(c, q, steps).files.rows, c.tenantId) == Usage(q.files.rows, c.tenantId) + amount
    decreases amount
  {
    if amount == 0 {
      steps := [];
    } else {
      var size := if amount < LARGEST then amount else LARGEST;
      var first := UploadAlone(c, q, size, size);
      var rest := Fill(c, QRun(c, q, first), amount - size);
      steps := first + rest;
      QRunJoin(c, q, first, rest);
    }
  }

  // Freeing space: administrator deletions

  ghost function Lift(steps: seq<Step>): seq<QStep> {
    if steps == [] then [] else [Other(steps[0])] + Lift(steps[1..])
  }

  lemma {:induction false} LiftRun(c: Setup, q: QSys, steps: seq<Step>)
    requires q.pending == map[] && forall i | 0 <= i < |steps| :: !steps[i].StartUpload?
    ensures QRun(c, q, Lift(steps)) == q.(files := Run(q.files, steps))
    decreases |steps|
  {
    if steps != [] {
      assert !steps[0].StartUpload?;
      QRunCons(c, q, Other(steps[0]), Lift(steps[1..]));
      assert QNext(c, q, Other(steps[0])) == q.(files := Next(q.files, steps[0])) by {
        assert Without(map[], if Ends(q, steps[0]) then steps[0].j else 0) == map[];
      }
      LiftRun(c, q.(files := Next(q.files, steps[0])), steps[1..]);
    }
  }

  lemma {:induction false} UnlinksStartNothing(j: nat, blobs: set<string>)
    ensures forall i | 0 <= i < |UnlinkAll(j, blobs)| :: UnlinkAll(j, blobs)[i].Unlink?
    decreases |blobs|
  {
    if blobs != {} {
      var p :| p in blobs && UnlinkAll(j, blobs) == [Unlink(j, p)] + UnlinkAll(j, blobs - {p});
      UnlinksStartNothing(j, blobs - {p});
    }
  }

  lemma UsageTrash(rows: Rows, id: string, tenantId: string, now: int)
    requires id in rows && !rows[id].isTrashed && rows[id].tenantId == tenantId
    ensures Usage(MarkTrashed(rows, {id}, now), tenantId) + rows[id].sizeBytes == Usage(rows, tenantId)
  {
    var before, after := Sizes(rows, tenantId), Sizes(MarkTrashed(rows, {id}, now), tenantId);
    TotalWithout(before, id);
    assert after == before - {id};
  }

  lemma FreeOne(c: Setup, q: QSys) returns (steps: seq<QStep>)
    requires Calm(q) && Usage(q.files.rows, c.tenantId) > 0
    ensures Calm(QRun(c, q, steps)) && Usage(QRun(c, q, steps).files.rows, c.tenantId) < Usage(q.files.rows, c.tenantId)
  {
    var sizes := Sizes(q.files.rows, c.tenantId);
    if forall id | id in sizes :: sizes[id] == 0 {
      TotalZero(sizes);
    }
    var id :| id in sizes && sizes[id] > 0;
    var row := q.files.rows[id];
    UnlinksStartNothing(0, Blobs(row));
    steps := Lift(AdminSteps(0, id, row));
    LiftRun(c, q, AdminSteps(0, id, row));
    AdminRun(q.files, 0, id);
    UsageTrash(q.files.rows, id, c.tenantId, q.files.now);
  }

  lemma {:induction false} FreeAll(c: Setup, q: QSys) returns (steps: seq<QStep>)
    requires Calm(q)
    ensures Calm(QRun(c, q, steps)) && Usage(QRun(c, q, steps).files.rows, c.tenantId) == 0
    decreases Usage(q.files.rows, c.tenantId)
  {
    if Usage(q.files.rows, c.tenantId) == 0 {
      steps := [];
    } else {
      var first := FreeOne(c, q);
      var rest := FreeAll(c, QRun(c, q, first));
      steps := first + rest;
      QRunJoin(c, q, first, rest);
    }
  }

  // Overlapping uploads

  /** `count` requests numbered upwards from `from` are pending, each with a file of `size` bytes. */
  function FullPending(from: nat, count: nat, size: nat): (m: map<nat, nat>)
    ensures forall j: nat :: j in m <==> from <= j < from + count
    ensures forall j | j in m :: m[j] == size
    ensures |m| == count
    decreases count
  {
    if count == 0 then map[]
    else
      var rest := FullPending(from + 1, count - 1, size);
      assert rest[from := size].Keys == rest.Keys + {from};
      rest[from := size]
  }

  lemma OneMoreCheck(c: Setup, q: QSys, from: nat, size: nat)
    requires c.limit.Some? && from < c.width && q.files.jobs == map[] && size <= LARGEST
    requires (Usage(q.files.rows, c.tenantId) + size) as real <= c.limit.value
    ensures QNext(c, q.(pending := FullPending(from + 1, c.width - from - 1, size)), Check(from, Receipt, size))
         == q.(pending := FullPending(from, c.width - from, size))
  {
  }

  /** All checks read the same usage, so all of them pass. */
  lemma {:induction false} ChecksPass(c: Setup, q: QSys, from: nat, size: nat) returns (steps: seq<QStep>)
    requires c.limit.Some? && from <= c.width && q.files.jobs == map[] && q.pending == map[] && size <= LARGEST
    requires (Usage(q.files.rows, c.tenantId) + size) as real <= c.limit.value
    ensures QRun(c, q, steps) == q.(pending := FullPending(from, c.width - from, size))
    decreases c.width - from
  {
    if from == c.width {
      steps := [];
    } else {
      var before := ChecksPass(c, q, from + 1, size);
      var check := Check(from, Receipt, size);
      steps := before + ([check] + []);
      QRunJoin(c, q, before, [check] + []);
      QRunCons(c, QRun(c, q, before), check, []);
      OneMoreCheck(c, q, from, size);
    }
  }

  lemma FullPendingWithout(from: nat, count: nat, size: nat)
    requires count > 0
    ensures Without(FullPending(from, count, size), from) == FullPending(from + 1, count - 1, size)
  {
  }

  lemma {:induction false} StoreAll(c: Setup, q: QSys, from: nat, count: nat, size: nat) returns (steps: seq<QStep>)
    requires q.files.jobs == map[] && q.files.rows.Keys <= q.files.used && q.pending == FullPending(from, count, size)
    ensures Usage(QRun(c, q, steps).files.rows, c.tenantId)
         == Usage(q.files.rows, c.tenantId) + Full(count, size, c.growth)
    decreases count
  {
    if count == 0 {
      steps := [];
    } else {
      FullPendingWithout(from, count, size);
      var first := StoreOne(c, q, from, size + c.growth);
      var rest := StoreAll(c, QRun(c, q, first), from + 1, count - 1, size);
      steps := first + rest;
      QRunJoin(c, q, first, rest);
    }
  }

  /** Empty the tenant, fill it up to one file below its limit, and let `width` checks of one file overlap. */
  lemma OvershootAttained(c: Setup, q: QSys) returns (steps: seq<QStep>)
    requires Settled(c, q) && c.width > 0
    ensures Usage(QRun(c, q, steps).files.rows, c.tenantId) == c.limit.value.Floor + OvershootOf(c)
  {
    var cap := Cap(c.limit.value);
    var freeing := FreeAll(c, q);
    var q1 := QRun(c, q, freeing);
    var filling := Fill(c, q1, c.limit.value.Floor - cap);
    var q2 := QRun(c, q1, filling);
    var checks := ChecksPass(c, q2, 0, cap);
    var stores := StoreAll(c, q2.(pending := FullPending(0, c.width, cap)), 0, c.width, cap);
    steps := (freeing + filling) + (checks + stores);
    QRunJoin(c, q, freeing, filling);
    QRunJoin(c, q2, checks, stores);
    QRunJoin(c, q, freeing + filling, checks + stores);
    FullIsOvershoot(c.width, cap, c.growth);
  }

  ghost predicate AlwaysWithinLimit(c: Setup, q: QSys)
    requires c.limit.Some?
  {
    forall steps :: Usage(QRun(c, q, steps).files.rows, c.tenantId) as real <= c.limit.value
  }

  /** From every settled state, the plan is kept on every schedule exactly when no upload is let through at
      all, or image processing never enlarges a file and either uploads never overlap or the limit is
      below one byte. */
  lemma QuotaHeldExactlyWhen(c: Setup, q: QSys)
    requires Settled(c, q)
    ensures AlwaysWithinLimit(c, q) <==>
      c.width == 0 || (c.growth == 0 && (c.width == 1 || c.limit.value < 1.0))
  {
    OvershootIsZero(Cap(c.limit.value), c.width, c.growth);
    if OvershootOf(c) == 0 {
      forall steps ensures Usage(QRun(c, q, steps).files.rows, c.tenantId) as real <= c.limit.value {
        UsageNeverPassesOvershoot(c, q, steps);
      }
    } else {
      var steps := OvershootAttained(c, q);
      assert Usage(QRun(c, q, steps).files.rows, c.tenantId) > c.limit.value.Floor;
    }
  }

  lemma OvershootIsZero(cap: nat, width: nat, growth: nat)
    ensures Overshoot(cap, width, growth) == 0 <==> width == 0 || (growth == 0 && (width == 1 || cap == 0))
  {
    if width > 1 && cap > 0 {
      MulMonotone(1, width - 1, cap);
    }
    if width > 0 && growth > 0 {
      MulMonotone(1, width, growth);
      MulMonotone(0, width - 1, cap);
    }
  }
}
