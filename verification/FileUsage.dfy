/** Storage figures: what a tenant uses, what each tenant uses, and what the platform stores. */
module FileUsage {
  import opened FileModel
  import opened MapSums

  /** The rows counted by every figure: trashed files are left out. */
  function Active(rows: Rows): Rows {
    map id | id in rows && !rows[id].isTrashed :: rows[id]
  }

  ghost function Sizes(rows: Rows, tenantId: string): map<string, nat> {
    map id | id in rows && !rows[id].isTrashed && rows[id].tenantId == tenantId :: rows[id].sizeBytes
  }

  /** current_usage_bytes of getTenantStorageUsage, and the figure checkStorageQuota compares. */
  ghost function Usage(rows: Rows, tenantId: string): nat {
    Total(Sizes(rows, tenantId))
  }

  /** file_count of getTenantStorageUsage. */
  ghost function FileCount(rows: Rows, tenantId: string): nat {
    |Sizes(rows, tenantId)|
  }

  /** total_size_bytes of getFileStatsForAdmin. */
  ghost function PlatformBytes(rows: Rows): nat {
    Total(AllSizes(rows))
  }

  ghost function AllSizes(rows: Rows): map<string, nat> {
    map id | id in rows && !rows[id].isTrashed :: rows[id].sizeBytes
  }

  ghost function PlatformFiles(rows: Rows): nat {
    |Active(rows)|
  }

  datatype TenantStat = TenantStat(fileCount: nat, totalBytes: nat)

  /** Every tenant that has an active file, with its own usage figures. */
  ghost function StatsByTenant(rows: Rows): map<string, TenantStat> {
    map t | t in TenantsOf(rows) :: TenantStat(FileCount(rows, t), Usage(rows, t))
  }

  function TenantsOf(rows: Rows): set<string> {
    set id | id in Active(rows) :: rows[id].tenantId
  }

  lemma NothingStored(rows: Rows, tenantId: string)
    ensures tenantId in TenantsOf(rows) <==> FileCount(rows, tenantId) > 0
    ensures tenantId !in TenantsOf(rows) ==> Usage(rows, tenantId) == 0
  {
    var sizes := Sizes(rows, tenantId);
    if tenantId in TenantsOf(rows) {
      var id :| id in Active(rows) && rows[id].tenantId == tenantId;
      Smaller(sizes, id);
    } else {
      forall id | id in Active(rows) ensures rows[id].tenantId != tenantId {
        assert rows[id].tenantId in TenantsOf(rows);
      }
      assert sizes == map[];
    }
  }

  /** One more row in the running group totals. */
  function CountRow(stats: map<string, TenantStat>, row: FileRow): map<string, TenantStat> {
    var stat := if row.tenantId in stats then stats[row.tenantId] else TenantStat(0, 0);
    stats[row.tenantId := TenantStat(stat.fileCount + 1, stat.totalBytes + row.sizeBytes)]
  }

  lemma CountAdd(rows: Rows, id: string, row: FileRow, tenantId: string)
    requires id !in rows && !row.isTrashed
    ensures FileCount(rows[id := row], tenantId)
         == FileCount(rows, tenantId) + if row.tenantId == tenantId then 1 else 0
  {
    var before, after := Sizes(rows, tenantId), Sizes(rows[id := row], tenantId);
    if row.tenantId == tenantId {
      Smaller(after, id);
      assert after - {id} == before;
    } else {
      assert after == before;
    }
  }

  lemma TenantsAdd(rows: Rows, id: string, row: FileRow)
    requires id !in rows && !row.isTrashed
    ensures TenantsOf(rows[id := row]) == TenantsOf(rows) + {row.tenantId}
  {
    var rows' := rows[id := row];
    assert id in Active(rows');
    forall t | t in TenantsOf(rows) ensures t in TenantsOf(rows') {
      var i :| i in Active(rows) && rows[i].tenantId == t;
      assert i in Active(rows') && rows'[i].tenantId == t;
    }
    forall t | t in TenantsOf(rows') ensures t in TenantsOf(rows) + {row.tenantId} {
      var i :| i in Active(rows') && rows'[i].tenantId == t;
      assert i != id ==> i in Active(rows);
    }
  }

  lemma CountedAt(rows: Rows, id: string, row: FileRow, t: string)
    requires id !in rows && !row.isTrashed && t in TenantsOf(rows) + {row.tenantId}
    ensures
      var rows' := rows[id := row];
      CountRow(StatsByTenant(rows), row)[t] == TenantStat(FileCount(rows', t), Usage(rows', t))
  {
    UsageAdd(rows, id, row, t);
    CountAdd(rows, id, row, t);
    NothingStored(rows, t);
  }

  lemma CountedRow(rows: Rows, id: string, row: FileRow)
    requires id !in rows && !row.isTrashed
    ensures StatsByTenant(rows[id := row]) == CountRow(StatsByTenant(rows), row)
  {
    TenantsAdd(rows, id, row);
    forall t | t in TenantsOf(rows) + {row.tenantId}
      ensures StatsByTenant(rows[id := row])[t] == CountRow(StatsByTenant(rows), row)[t]
    {
      CountedAt(rows, id, row, t);
    }
  }

  lemma ActiveOnly(rows: Rows)
    ensures StatsByTenant(Active(rows)) == StatsByTenant(rows)
  {
    assert Active(Active(rows)) == Active(rows);
    forall t ensures Sizes(Active(rows), t) == Sizes(rows, t) { }
  }

  lemma StatsMeaning(rows: Rows)
    ensures StatsByTenant(Active(rows)) == StatsByTenant(rows)
    ensures forall t :: t in StatsByTenant(rows) <==> FileCount(rows, t) > 0
    ensures forall t | t in StatsByTenant(rows) ::
      StatsByTenant(rows)[t] == TenantStat(FileCount(rows, t), Usage(rows, t))
  {
    ActiveOnly(rows);
    forall t ensures t in StatsByTenant(rows) <==> FileCount(rows, t) > 0 { NothingStored(rows, t); }
  }

  /** The active rows are those counted so far and those left. */
  ghost predicate Counting(rows: Rows, left: Rows, seen: Rows) {
    left.Keys !! seen.Keys && seen + left == Active(rows)
  }

  lemma OneMoreCounted(rows: Rows, left: Rows, seen: Rows, id: string)
    requires Counting(rows, left, seen) && id in left
    ensures Counting(rows, left - {id}, seen[id := left[id]]) && id !in seen && !left[id].isTrashed
  {
    assert left[id] == (seen + left)[id] == Active(rows)[id];
    assert seen[id := left[id]] + (left - {id}) == seen + left;
  }

  /** The groupBy of getStorageStatsByTenant: one pass over the active rows, in any order. */
  method GroupByTenant(rows: Rows) returns (stats: map<string, TenantStat>)
    ensures forall t :: t in stats <==> FileCount(rows, t) > 0
    ensures forall t | t in stats :: stats[t] == TenantStat(FileCount(rows, t), Usage(rows, t))
    ensures stats == StatsByTenant(rows)
  {
    stats := map[];
    var left := Active(rows);
    ghost var seen: Rows := map[];
    while left != map[]
      invariant Counting(rows, left, seen)
      invariant stats == StatsByTenant(seen)
      decreases |left|
    {
      var id :| id in left;
      Smaller(left, id);
      OneMoreCounted(rows, left, seen, id);
      CountedRow(seen, id, left[id]);
      stats := CountRow(stats, left[id]);
      seen := seen[id := left[id]];
      left := left - {id};
    }
    assert seen == Active(rows);
    StatsMeaning(rows);
  }

  ghost function BytesByTenant(rows: Rows, tenants: set<string>): map<string, nat> {
    map t | t in tenants :: Usage(rows, t)
  }

  ghost function FilesByTenant(rows: Rows, tenants: set<string>): map<string, nat> {
    map t | t in tenants :: FileCount(rows, t)
  }

  /** Active rows tagged with their tenant. */
  ghost function Tagged(rows: Rows, weight: FileRow -> nat): map<string, (string, nat)> {
    map id | id in rows && !rows[id].isTrashed :: (rows[id].tenantId, weight(rows[id]))
  }

  lemma BytesGrouped(rows: Rows, tenants: set<string>)
    ensures var bytes := Tagged(rows, (row: FileRow) => row.sizeBytes);
      Weights(bytes) == AllSizes(rows) && GroupTotals(bytes, tenants) == BytesByTenant(rows, tenants)
  {
    var bytes := Tagged(rows, (row: FileRow) => row.sizeBytes);
    forall t | t in tenants ensures InGroup(bytes, t) == Sizes(rows, t) { }
  }

  lemma BytesConserve(rows: Rows, tenants: set<string>)
    requires forall id | id in rows && !rows[id].isTrashed :: rows[id].tenantId in tenants
    ensures Total(BytesByTenant(rows, tenants)) == PlatformBytes(rows)
  {
    BytesGrouped(rows, tenants);
    GroupsPartitionTheTotal(Tagged(rows, (row: FileRow) => row.sizeBytes), tenants);
  }

  lemma FilesConserve(rows: Rows, tenants: set<string>)
    requires forall id | id in rows && !rows[id].isTrashed :: rows[id].tenantId in tenants
    ensures Total(FilesByTenant(rows, tenants)) == PlatformFiles(rows)
  {
    GroupsPartitionTheTotal(Tagged(rows, _ => 1), tenants);
    forall t | t in tenants ensures Total(InGroup(Tagged(rows, _ => 1), t)) == FileCount(rows, t) {
      OnesOfTenant(rows, t);
    }
    assert GroupTotals(Tagged(rows, _ => 1), tenants) == FilesByTenant(rows, tenants);
    OnesOfAll(rows);
  }

  lemma OnesOfTenant(rows: Rows, t: string)
    ensures Total(InGroup(Tagged(rows, _ => 1), t)) == FileCount(rows, t)
  {
    var ones := InGroup(Tagged(rows, _ => 1), t);
    TotalOfOnes(ones);
    assert ones.Keys == Sizes(rows, t).Keys;
  }

  lemma OnesOfAll(rows: Rows)
    ensures Total(Weights(Tagged(rows, _ => 1))) == PlatformFiles(rows)
  {
    var ones := Weights(Tagged(rows, _ => 1));
    TotalOfOnes(ones);
    assert ones.Keys == Active(rows).Keys;
  }

  ghost function StatBytes(stats: map<string, TenantStat>): map<string, nat> {
    map t | t in stats :: stats[t].totalBytes
  }

  ghost function StatFiles(stats: map<string, TenantStat>): map<string, nat> {
    map t | t in stats :: stats[t].fileCount
  }

  lemma StatColumns(rows: Rows)
    ensures StatBytes(StatsByTenant(rows)) == BytesByTenant(rows, TenantsOf(rows))
    ensures StatFiles(StatsByTenant(rows)) == FilesByTenant(rows, TenantsOf(rows))
  {
  }

  lemma TenantsCover(rows: Rows)
    ensures forall id | id in rows && !rows[id].isTrashed :: rows[id].tenantId in TenantsOf(rows)
  {
    forall id | id in rows && !rows[id].isTrashed ensures rows[id].tenantId in TenantsOf(rows) {
      assert id in Active(rows);
    }
  }

  /** The per-tenant figures add up to the platform figures, in bytes and in files. */
  lemma TenantStatsConserve(rows: Rows)
    ensures Total(StatBytes(StatsByTenant(rows))) == PlatformBytes(rows)
    ensures Total(StatFiles(StatsByTenant(rows))) == PlatformFiles(rows)
  {
    StatColumns(rows);
    TenantsCover(rows);
    BytesConserve(rows, TenantsOf(rows));
    FilesConserve(rows, TenantsOf(rows));
  }

  // ---- How updates move a tenant's usage. ----

  lemma UsageAdd(rows: Rows, id: string, row: FileRow, tenantId: string)
    requires id !in rows && !row.isTrashed
    ensures Usage(rows[id := row], tenantId) ==
      Usage(rows, tenantId) + if row.tenantId == tenantId then row.sizeBytes else 0
  {
    var before, after := Sizes(rows, tenantId), Sizes(rows[id := row], tenantId);
    if row.tenantId == tenantId {
      TotalWithout(after, id);
      assert after - {id} == before;
    } else {
      assert after == before;
    }
  }

  lemma UsageShrinks(rows: Rows, rows': Rows, tenantId: string)
    requires forall id | id in rows' && !rows'[id].isTrashed ::
      && id in rows && !rows[id].isTrashed
      && rows'[id].tenantId == rows[id].tenantId && rows'[id].sizeBytes == rows[id].sizeBytes
    ensures Usage(rows', tenantId) <= Usage(rows, tenantId)
  {
    TotalMonotone(Sizes(rows', tenantId), Sizes(rows, tenantId));
  }
}
