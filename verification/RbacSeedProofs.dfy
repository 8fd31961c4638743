/** What a run of the seed guarantees, from any database and for any definition lists. */
module RbacSeedProofs {
  import opened Wrappers
  import opened Strings
  import opened Upserts
  import opened RbacModel

  /** Seeding again changes nothing, and fails again where the first run failed. */
  lemma SeedingTwiceIsSeedingOnce(defs: Definitions, db: Db)
    requires Sound(db)
    ensures Seeded(defs, Seeded(defs, db).db) == Seeded(defs, db)
  {
    var once := Seeded(defs, db).db;
    UpsertAllTwice(db.modules, defs.modules, true);
    UpsertAllTwice(db.permissions, PermissionPuts(once.modules, defs.permissions), true);
    var progress := TemplateWrites(AllPermissions(once.modules, once.permissions), defs.templates);
    RewriteAllTwice(db.templates, progress.writes, true);
    RewriteAllTwice(db.roles, RoleWrites(once.templates, defs.templates), false);
  }

  // Which permissions are upserted

  lemma NamedAppend<K, V>(a: seq<Put<K, V>>, b: seq<Put<K, V>>, k: K)
    ensures Named(a + b, k) <==> Named(a, k) || Named(b, k)
  {
    if i :| 0 <= i < |a| && a[i].key == k {
      assert (a + b)[i].key == k;
    }
    if i :| 0 <= i < |b| && b[i].key == k {
      assert (a + b)[|a| + i].key == k;
    }
  }

  /** What the later of two lists writes last stands. */
  lemma {:induction false} LastAppend<K, V>(a: seq<Put<K, V>>, b: seq<Put<K, V>>, k: K)
    requires Named(a + b, k)
    ensures Named(b, k) ==> Last(a + b, k) == Last(b, k)
    ensures !Named(b, k) ==> Named(a, k) && Last(a + b, k) == Last(a, k)
  {
    NamedAppend(a, b, k);
    if b == [] {
      assert a + b == a;
    } else {
      var front := b[..|b| - 1];
      assert (a + b)[..|a + b| - 1] == a + front;
      NamedSnoc(b, k);
      if b[|b| - 1].key != k {
        NamedAppend(a, front, k);
        LastAppend(a, front, k);
      }
    }
  }

  lemma {:induction false} PutsUnderLast(moduleId: nat, permissions: seq<Put<string, PermissionText>>, action: string)
    requires Named(permissions, action)
    ensures Named(PutsUnder(moduleId, permissions), (moduleId, action))
    ensures Last(PutsUnder(moduleId, permissions), (moduleId, action)) == Last(permissions, action)
  {
    PutsUnderNamed(moduleId, permissions, (moduleId, action));
    var front, last := permissions[..|permissions| - 1], permissions[|permissions| - 1];
    var puts := PutsUnder(moduleId, permissions);
    assert puts[..|puts| - 1] == PutsUnder(moduleId, front);
    NamedSnoc(permissions, action);
    if last.key != action {
      PutsUnderLast(moduleId, front, action);
    }
  }

  lemma {:induction false} PutsUnderNamed(moduleId: nat, permissions: seq<Put<string, PermissionText>>,
                                          k: (nat, string))
    ensures Named(PutsUnder(moduleId, permissions), k) <==> k.0 == moduleId && Named(permissions, k.1)
  {
    if permissions != [] {
      var front, last := permissions[..|permissions| - 1], permissions[|permissions| - 1];
      PutsUnderNamed(moduleId, front, k);
      NamedSnoc(permissions, k.1);
      var puts := PutsUnder(moduleId, permissions);
      assert puts[..|puts| - 1] == PutsUnder(moduleId, front);
      NamedSnoc(puts, k);
    }
  }

  /** The group's module exists with this id, and the group names the action. */
  ghost predicate DefinesUnder(modules: Modules, group: PermissionGroup, k: (nat, string)) {
    && group.moduleName in modules.rows && modules.rows[group.moduleName].id == k.0
    && Named(group.permissions, k.1)
  }

  /** Some group whose module exists defines the permission with this module id and action. */
  ghost predicate PermissionDefined(modules: Modules, groups: seq<PermissionGroup>, k: (nat, string)) {
    exists i :: 0 <= i < |groups| && DefinesUnder(modules, groups[i], k)
  }

  lemma {:induction false} PermissionPutsNamed(modules: Modules, groups: seq<PermissionGroup>, k: (nat, string))
    ensures Named(PermissionPuts(modules, groups), k) <==> PermissionDefined(modules, groups, k)
  {
    if groups != [] {
      var front, last := groups[..|groups| - 1], groups[|groups| - 1];
      PermissionPutsNamed(modules, front, k);
      if last.moduleName in modules.rows {
        var id := modules.rows[last.moduleName].id;
        PutsUnderNamed(id, last.permissions, k);
        NamedAppend(PermissionPuts(modules, front), PutsUnder(id, last.permissions), k);
      } else {
        assert PermissionPuts(modules, groups) == PermissionPuts(modules, front);
      }
      if i :| 0 <= i < |front| && DefinesUnder(modules, front[i], k) {
        assert groups[i] == front[i];
      }
      if PermissionDefined(modules, groups, k) {
        var i :| 0 <= i < |groups| && DefinesUnder(modules, groups[i], k);
        if i < |front| {
          assert front[i] == groups[i];
        }
      }
    }
  }

  lemma HousedAfterModules(modules: Modules, permissions: Permissions, puts: seq<Put<string, ModuleText>>)
    requires Housed(modules, permissions)
    ensures Housed(UpsertAll(modules, puts, true), permissions)
  {
    forall k | k in permissions.rows ensures HasModule(UpsertAll(modules, puts, true), k.0) {
      assert HasModule(modules, k.0);
      var m :| m in modules.rows && modules.rows[m].id == k.0;
      UpsertAllAt(modules, puts, true, m);
    }
  }

  lemma HousedAfterPermissions(modules: Modules, permissions: Permissions, groups: seq<PermissionGroup>)
    requires Housed(modules, permissions)
    ensures Housed(modules, UpsertAll(permissions, PermissionPuts(modules, groups), true))
  {
    var after := UpsertAll(permissions, PermissionPuts(modules, groups), true);
    forall k | k in after.rows ensures HasModule(modules, k.0) {
      UpsertAllAt(permissions, PermissionPuts(modules, groups), true, k);
      PermissionPutsNamed(modules, groups, k);
    }
  }

  /** Primary keys and the foreign key of permissions survive a run. */
  lemma SeedingKeepsKeys(defs: Definitions, db: Db)
    requires Sound(db)
    ensures Sound(Seeded(defs, db).db)
  {
    var after := Seeded(defs, db);
    UpsertAllKeyed(db.modules, defs.modules, true);
    UpsertAllKeyed(db.permissions, PermissionPuts(after.db.modules, defs.permissions), true);
    var progress := TemplateWrites(AllPermissions(after.db.modules, after.db.permissions), defs.templates);
    RewriteAllMeaning(db.templates, progress.writes, true);
    UpsertAllKeyed(db.templates.table, Puts(progress.writes), true);
    var roleWrites := RoleWrites(after.db.templates, defs.templates);
    RewriteAllMeaning(db.roles, roleWrites, false);
    UpsertAllKeyed(db.roles.table, Puts(roleWrites), false);
    HousedAfterModules(db.modules, db.permissions, defs.modules);
    HousedAfterPermissions(after.db.modules, db.permissions, defs.permissions);
  }

  lemma AllPermissionsDistinct(modules: Modules, permissions: Permissions)
    requires Keyed(modules) && Keyed(permissions)
    ensures Distinct(AllPermissions(modules, permissions))
  {
  }

  // Resolving one template

  lemma {:induction false} CreateAllMeaning(ids: seq<nat>)
    ensures CreateAll(ids).failed <==> exists i, j :: 0 <= i < j < |ids| && ids[i] == ids[j]
    ensures !CreateAll(ids).failed ==> forall p :: p in CreateAll(ids).ids <==> p in ids
  {
    if ids != [] {
      var front, last := ids[..|ids| - 1], ids[|ids| - 1];
      CreateAllMeaning(front);
      if CreateAll(front).failed {
        var i, j :| 0 <= i < j < |front| && front[i] == front[j];
        assert ids[i] == ids[j];
      } else if last in front {
        var i :| 0 <= i < |front| && front[i] == last;
        assert ids[i] == ids[|ids| - 1];
      } else {
        forall i, j | 0 <= i < j < |ids| ensures ids[i] != ids[j] {
          assert front[i] == ids[i];
          if j < |front| {
            assert front[j] == ids[j];
          }
        }
        assert ids == front + [last];
      }
    }
  }

  lemma FindNames(all: set<Permission>, text: string, p: Permission)
    requires Distinct(all) && p in all
    ensures Names(text, p) <==> Find(all, text) == Some(p.id)
  {
  }

  lemma {:induction false} ResolvedIds(all: set<Permission>, list: seq<string>, p: Permission)
    requires Distinct(all) && p in all
    ensures p.id in Resolved(all, list) <==> exists i :: 0 <= i < |list| && Names(list[i], p)
  {
    if list != [] {
      var front, last := list[..|list| - 1], list[|list| - 1];
      ResolvedIds(all, front, p);
      FindNames(all, last, p);
      if i :| 0 <= i < |front| && Names(front[i], p) {
        assert Names(list[i], p);
      }
      if i :| 0 <= i < |list| && Names(list[i], p) && !Names(last, p) {
        assert Names(front[i], p);
      }
    }
  }

  lemma {:induction false} ResolvedFound(all: set<Permission>, list: seq<string>, id: nat)
    requires id in Resolved(all, list)
    ensures exists p :: p in all && p.id == id
  {
    var front, last := list[..|list| - 1], list[|list| - 1];
    if id in Resolved(all, front) {
      ResolvedFound(all, front, id);
    }
  }

  /** Two entries of the list name one existing permission. */
  ghost predicate NamesTwice(all: set<Permission>, grant: Grant) {
    && grant.Listed?
    && exists p, i, j ::
         p in all && 0 <= i < j < |grant.list| && Names(grant.list[i], p) && Names(grant.list[j], p)
  }

  predicate Repeats(ids: seq<nat>) {
    exists i, j :: 0 <= i < j < |ids| && ids[i] == ids[j]
  }

  lemma RepeatsSnoc(front: seq<nat>, last: nat)
    ensures Repeats(front + [last]) <==> Repeats(front) || last in front
  {
    var ids := front + [last];
    if Repeats(front) {
      var i, j :| 0 <= i < j < |front| && front[i] == front[j];
      assert ids[i] == ids[j];
    }
    if last in front {
      var i :| 0 <= i < |front| && front[i] == last;
      assert ids[i] == ids[|front|];
    }
    if Repeats(ids) {
      var i, j :| 0 <= i < j < |ids| && ids[i] == ids[j];
      assert front[i] == ids[i];
    }
  }

  /** The last entry of the list names a permission that an earlier one names. */
  ghost predicate LastNamesAgain(all: set<Permission>, list: seq<string>)
    requires list != []
  {
    exists p, i :: p in all && 0 <= i < |list| - 1 && Names(list[i], p) && Names(list[|list| - 1], p)
  }

  lemma NamesTwiceSnoc(all: set<Permission>, list: seq<string>)
    requires list != []
    ensures NamesTwice(all, Listed(list)) <==> NamesTwice(all, Listed(list[..|list| - 1])) || LastNamesAgain(all, list)
  {
    var front := list[..|list| - 1];
    if NamesTwice(all, Listed(front)) {
      var p, i, j :| p in all && 0 <= i < j < |front| && Names(front[i], p) && Names(front[j], p);
      assert Names(list[i], p) && Names(list[j], p);
    }
    if NamesTwice(all, Listed(list)) {
      var p, i, j :| p in all && 0 <= i < j < |list| && Names(list[i], p) && Names(list[j], p);
      if j < |front| {
        assert Names(front[i], p) && Names(front[j], p);
      }
    }
  }

  lemma LastNamesAgainMeaning(all: set<Permission>, list: seq<string>, p: Permission)
    requires list != [] && Distinct(all) && p in all && Names(list[|list| - 1], p)
    ensures LastNamesAgain(all, list) <==> p.id in Resolved(all, list[..|list| - 1])
  {
    var front, last := list[..|list| - 1], list[|list| - 1];
    ResolvedIds(all, front, p);
    if i :| 0 <= i < |front| && Names(front[i], p) {
      assert Names(list[i], p);
    }
    if q, i :| q in all && 0 <= i < |front| && Names(list[i], q) && Names(last, q) {
      FindNames(all, last, q);
      FindNames(all, last, p);
      assert Names(front[i], p);
    }
  }

  lemma {:induction false} ResolvedRepeats(all: set<Permission>, list: seq<string>)
    requires Distinct(all)
    ensures Repeats(Resolved(all, list)) <==> NamesTwice(all, Listed(list))
  {
    if list != [] {
      var front, last := list[..|list| - 1], list[|list| - 1];
      ResolvedRepeats(all, front);
      NamesTwiceSnoc(all, list);
      if p :| p in all && Names(last, p) {
        FindNames(all, last, p);
        LastNamesAgainMeaning(all, list, p);
        RepeatsSnoc(Resolved(all, front), p.id);
      } else {
        assert Resolved(all, list) == Resolved(all, front);
      }
    }
  }

  /** A template's links fail exactly when its list names a permission twice; otherwise they are what
      the grant covers. */
  lemma GrantedIsTheResolution(all: set<Permission>, grant: Grant)
    requires Distinct(all)
    ensures Granted(all, grant).failed <==> NamesTwice(all, grant)
    ensures !Granted(all, grant).failed ==> Granted(all, grant).ids == Resolution(all, grant)
  {
    if grant.Listed? {
      var ids := Resolved(all, grant.list);
      CreateAllMeaning(ids);
      ResolvedRepeats(all, grant.list);
      if !Granted(all, grant).failed {
        forall id ensures id in Granted(all, grant).ids <==> id in Resolution(all, grant) {
          if id in ids {
            ResolvedFound(all, grant.list, id);
          }
          if p :| p in all && p.id == id {
            ResolvedIds(all, grant.list, p);
          }
        }
      }
    }
  }

  // The template and role phases

  ghost predicate Defined(templates: seq<Template>, name: string) {
    exists i :: 0 <= i < |templates| && templates[i].name == name
  }

  function LastTemplate(templates: seq<Template>, name: string): Template
    requires Defined(templates, name)
  {
    var last := templates[|templates| - 1];
    if last.name == name then last else LastTemplate(templates[..|templates| - 1], name)
  }

  lemma DefinedSnoc(templates: seq<Template>, name: string)
    requires templates != []
    ensures
      var last := |templates| - 1;
      Defined(templates, name) <==> Defined(templates[..last], name) || templates[last].name == name
  {
    var front := templates[..|templates| - 1];
    if Defined(front, name) {
      var i :| 0 <= i < |front| && front[i].name == name;
      assert templates[i].name == name;
    }
    if i :| 0 <= i < |templates| && templates[i].name == name && templates[|templates| - 1].name != name {
      assert front[i].name == name;
    }
  }

  lemma PutsSnoc<K, V>(writes: seq<Write<K, V>>, w: Write<K, V>)
    ensures Puts(writes + [w]) == Puts(writes) + [w.put]
  {
    assert (writes + [w])[..|writes|] == writes;
  }

  /** Appending one write changes what one key was last given. */
  lemma LastSnoc<K, V>(writes: seq<Write<K, V>>, w: Write<K, V>, k: K)
    ensures Named(Puts(writes + [w]), k) <==> Named(Puts(writes), k) || w.put.key == k
    ensures w.put.key == k ==> Last(Puts(writes + [w]), k) == w.put.written && LastGranted(writes + [w], k) == w.granted
    ensures w.put.key != k && Named(Puts(writes), k) ==>
      Last(Puts(writes + [w]), k) == Last(Puts(writes), k) && LastGranted(writes + [w], k) == LastGranted(writes, k)
  {
    PutsSnoc(writes, w);
    var puts := Puts(writes + [w]);
    assert puts[..|puts| - 1] == Puts(writes);
    assert (writes + [w])[..|writes|] == writes;
    NamedSnoc(puts, k);
  }

  lemma {:induction false} TemplateWritesAt(all: set<Permission>, templates: seq<Template>, name: string)
    requires !TemplateWrites(all, templates).failed
    ensures Named(Puts(TemplateWrites(all, templates).writes), name) <==> Defined(templates, name)
    ensures Defined(templates, name) ==>
      Last(Puts(TemplateWrites(all, templates).writes), name) == LastTemplate(templates, name).text
    ensures Defined(templates, name) ==>
      var granted := Granted(all, LastTemplate(templates, name).grant);
      LastGranted(TemplateWrites(all, templates).writes, name) == granted.ids && !granted.failed
  {
    if templates != [] {
      var front, last := templates[..|templates| - 1], templates[|templates| - 1];
      TemplateWritesAt(all, front, name);
      DefinedSnoc(templates, name);
      LastSnoc(TemplateWrites(all, front).writes, Write(Put(last.name, last.text), Granted(all, last.grant).ids), name);
    }
  }

  /** Whether or not the phase fails, it writes no template that is not defined. */
  lemma {:induction false} TemplateWritesOnly(all: set<Permission>, templates: seq<Template>, name: string)
    requires Named(Puts(TemplateWrites(all, templates).writes), name)
    ensures Defined(templates, name)
  {
    var front, last := templates[..|templates| - 1], templates[|templates| - 1];
    DefinedSnoc(templates, name);
    var before := TemplateWrites(all, front);
    if !before.failed {
      LastSnoc(before.writes, Write(Put(last.name, last.text), Granted(all, last.grant).ids), name);
    }
    if Named(Puts(before.writes), name) {
      TemplateWritesOnly(all, front, name);
    }
  }

  lemma {:induction false} TemplateWritesFail(all: set<Permission>, templates: seq<Template>)
    ensures TemplateWrites(all, templates).failed <==> exists i ::
      0 <= i < |templates| && Granted(all, templates[i].grant).failed
  {
    if templates != [] {
      var front := templates[..|templates| - 1];
      TemplateWritesFail(all, front);
      if i :| 0 <= i < |front| && Granted(all, front[i].grant).failed {
        assert Granted(all, templates[i].grant).failed;
      }
      if i :| 0 <= i < |templates| && Granted(all, templates[i].grant).failed && i < |front| {
        assert Granted(all, front[i].grant).failed;
      }
    }
  }

  lemma {:induction false} RoleWritesAt(from: Templates, templates: seq<Template>, name: string)
    ensures Named(Puts(RoleWrites(from, templates)), name) <==> Defined(templates, name) && name in from.table.rows
    ensures Defined(templates, name) && name in from.table.rows ==>
      var description := LastTemplate(templates, name).text.description;
      && Last(Puts(RoleWrites(from, templates)), name) == RoleText(description, true, true)
      && LastGranted(RoleWrites(from, templates), name) == Owned(from.links, from.table.rows[name].id)
  {
    if templates != [] {
      var front, last := templates[..|templates| - 1], templates[|templates| - 1];
      RoleWritesAt(from, front, name);
      DefinedSnoc(templates, name);
      if last.name in from.table.rows {
        LastSnoc(RoleWrites(from, front), RoleWrite(from, last), name);
      } else {
        assert RoleWrites(from, templates) == RoleWrites(from, front);
      }
    }
  }

  /** The last group to define the permission. */
  ghost predicate LastToDefine(modules: Modules, groups: seq<PermissionGroup>, i: int, k: (nat, string)) {
    && 0 <= i < |groups| && DefinesUnder(modules, groups[i], k)
    && forall j | i < j < |groups| :: !DefinesUnder(modules, groups[j], k)
  }

  lemma {:induction false} PermissionPutsLast(modules: Modules, groups: seq<PermissionGroup>, i: int, k: (nat, string))
    requires LastToDefine(modules, groups, i, k)
    ensures Named(PermissionPuts(modules, groups), k)
    ensures Last(PermissionPuts(modules, groups), k) == Last(groups[i].permissions, k.1)
    decreases |groups|
  {
    PermissionPutsNamed(modules, groups, k);
    var front, last := groups[..|groups| - 1], groups[|groups| - 1];
    if last.moduleName in modules.rows {
      var under := PutsUnder(modules.rows[last.moduleName].id, last.permissions);
      PutsUnderNamed(modules.rows[last.moduleName].id, last.permissions, k);
      LastAppend(PermissionPuts(modules, front), under, k);
    } else {
      assert PermissionPuts(modules, groups) == PermissionPuts(modules, front);
    }
    if i == |front| {
      PutsUnderLast(k.0, last.permissions, k.1);
    } else {
      assert !DefinesUnder(modules, last, k) && LastToDefine(modules, front, i, k);
      PermissionPutsLast(modules, front, i, k);
    }
  }

  // Main results

  ghost function Catalogue(db: Db): set<Permission> {
    AllPermissions(db.modules, db.permissions)
  }

  /** The permission is in the database already, or some group defines it under a module that is in the
      database already or is defined. */
  ghost predicate WillExist(defs: Definitions, db: Db, moduleName: string, action: string) {
    || (moduleName in db.modules.rows && (db.modules.rows[moduleName].id, action) in db.permissions.rows)
    || ((moduleName in db.modules.rows || Named(defs.modules, moduleName)) && DefinedUnder(defs, moduleName, action))
  }

  ghost predicate DefinedUnder(defs: Definitions, moduleName: string, action: string) {
    exists i :: 0 <= i < |defs.permissions| && defs.permissions[i].moduleName == moduleName
                && Named(defs.permissions[i].permissions, action)
  }

  /** Two entries of a template's list name one permission. */
  ghost predicate ListsTwice(grant: Grant, moduleName: string, action: string) {
    grant.Listed? && exists i, j :: BothName(grant.list, i, j, moduleName, action)
  }

  predicate BothName(list: seq<string>, i: int, j: int, moduleName: string, action: string) {
    0 <= i < j < |list| && NamesPair(list[i], moduleName, action) && NamesPair(list[j], moduleName, action)
  }

  lemma NamesTwiceMeaning(all: set<Permission>, grant: Grant)
    ensures NamesTwice(all, grant) <==> exists p :: p in all && ListsTwice(grant, p.moduleName, p.action)
  {
    if NamesTwice(all, grant) {
      var p, i, j :| p in all && 0 <= i < j < |grant.list| && Names(grant.list[i], p) && Names(grant.list[j], p);
      assert BothName(grant.list, i, j, p.moduleName, p.action);
    }
    if p :| p in all && ListsTwice(grant, p.moduleName, p.action) {
      var i, j :| BothName(grant.list, i, j, p.moduleName, p.action);
      assert Names(grant.list[i], p) && Names(grant.list[j], p);
    }
  }

  ghost predicate InCatalogue(all: set<Permission>, moduleName: string, action: string) {
    exists p :: p in all && p.moduleName == moduleName && p.action == action
  }

  /** The catalogue the template phase will read, in terms of what is there before the run. */
  lemma CatalogueForeseen(defs: Definitions, db: Db, moduleName: string, action: string)
    requires Sound(db)
    ensures InCatalogue(Catalogue(Seeded(defs, db).db), moduleName, action) <==> WillExist(defs, db, moduleName, action)
  {
    var after := Seeded(defs, db).db;
    SeedingKeepsKeys(defs, db);
    UpsertAllAt(db.modules, defs.modules, true, moduleName);
    if moduleName in after.modules.rows {
      var k := (after.modules.rows[moduleName].id, action);
      CatalogueIsAsDefined(defs, db, moduleName, k);
      PairDefined(defs, after.modules, moduleName, action);
      OldIdsOnly(defs, db, moduleName, action);
      if k in after.permissions.rows {
        assert Permission(after.permissions.rows[k].id, moduleName, action) in Catalogue(after);
      }
    }
  }

  lemma PairDefined(defs: Definitions, modules: Modules, moduleName: string, action: string)
    requires Keyed(modules) && moduleName in modules.rows
    ensures PermissionDefined(modules, defs.permissions, (modules.rows[moduleName].id, action))
       <==> DefinedUnder(defs, moduleName, action)
  {
  }

  /** A module created by the run has no permissions from before it. */
  lemma OldIdsOnly(defs: Definitions, db: Db, moduleName: string, action: string)
    requires Sound(db) && moduleName in Seeded(defs, db).db.modules.rows
    ensures (Seeded(defs, db).db.modules.rows[moduleName].id, action) in db.permissions.rows
       <==> moduleName in db.modules.rows && (db.modules.rows[moduleName].id, action) in db.permissions.rows
  {
    var after := Seeded(defs, db).db;
    var k := (after.modules.rows[moduleName].id, action);
    UpsertAllKeyed(db.modules, defs.modules, true);
    UpsertAllAt(db.modules, defs.modules, true, moduleName);
    if k in db.permissions.rows {
      assert HasModule(db.modules, k.0);
      var m :| m in db.modules.rows && db.modules.rows[m].id == k.0;
      UpsertAllAt(db.modules, defs.modules, true, m);
    }
  }

  ghost predicate FailureForeseen(defs: Definitions, db: Db, i: nat)
    requires i < |defs.templates|
  {
    exists moduleName, action ::
      ListsTwice(defs.templates[i].grant, moduleName, action) && WillExist(defs, db, moduleName, action)
  }

  lemma NamesTwiceForeseen(defs: Definitions, db: Db, i: nat, all: set<Permission>)
    requires i < |defs.templates|
    requires forall m, x :: InCatalogue(all, m, x) <==> WillExist(defs, db, m, x)
    ensures NamesTwice(all, defs.templates[i].grant) <==> FailureForeseen(defs, db, i)
  {
    var grant := defs.templates[i].grant;
    NamesTwiceMeaning(all, grant);
    if p :| p in all && ListsTwice(grant, p.moduleName, p.action) {
      assert InCatalogue(all, p.moduleName, p.action);
    }
    if FailureForeseen(defs, db, i) {
      var m, x :| ListsTwice(grant, m, x) && WillExist(defs, db, m, x);
      assert InCatalogue(all, m, x);
      var p :| p in all && p.moduleName == m && p.action == x;
      assert ListsTwice(grant, p.moduleName, p.action);
    }
  }

  /** A run fails exactly when some template's list names twice a permission that the database has, or that
      is defined under a module the database has or the run defines. */
  lemma SeedFailsExactlyWhen(defs: Definitions, db: Db)
    requires Sound(db)
    ensures Seeded(defs, db).failed <==> exists i :: 0 <= i < |defs.templates| && FailureForeseen(defs, db, i)
  {
    var after := Seeded(defs, db).db;
    var all := Catalogue(after);
    SeedingKeepsKeys(defs, db);
    AllPermissionsDistinct(after.modules, after.permissions);
    TemplateWritesFail(all, defs.templates);
    forall m, x ensures InCatalogue(all, m, x) <==> WillExist(defs, db, m, x) { CatalogueForeseen(defs, db, m, x); }
    forall i | 0 <= i < |defs.templates|
      ensures Granted(all, defs.templates[i].grant).failed <==> FailureForeseen(defs, db, i)
    {
      GrantedIsTheResolution(all, defs.templates[i].grant);
      NamesTwiceForeseen(defs, db, i, all);
    }
  }

  /** After a run that succeeds, every defined template and the role of the same name are linked to
      exactly what the template's last definition covers. */
  lemma SeededRolesHoldTheirTemplate(defs: Definitions, db: Db, name: string)
    requires Sound(db) && !Seeded(defs, db).failed && Defined(defs.templates, name)
    ensures
      var after := Seeded(defs, db).db;
      var d := LastTemplate(defs.templates, name);
      && name in after.templates.table.rows && name in after.roles.table.rows
      && after.templates.table.rows[name].written == d.text
      && after.roles.table.rows[name].written == RoleText(d.text.description, true, true)
      && Owned(after.templates.links, after.templates.table.rows[name].id) == Resolution(Catalogue(after), d.grant)
      && Owned(after.roles.links, after.roles.table.rows[name].id) == Resolution(Catalogue(after), d.grant)
  {
    var after := Seeded(defs, db).db;
    SeedingKeepsKeys(defs, db);
    AllPermissionsDistinct(after.modules, after.permissions);
    var writes := TemplateWrites(Catalogue(after), defs.templates).writes;
    TemplateWritesAt(Catalogue(after), defs.templates, name);
    GrantedIsTheResolution(Catalogue(after), LastTemplate(defs.templates, name).grant);
    RewriteAllMeaning(db.templates, writes, true);
    UpsertAllAt(db.templates.table, Puts(writes), true, name);
    var roleWrites := RoleWrites(after.templates, defs.templates);
    RoleWritesAt(after.templates, defs.templates, name);
    RewriteAllMeaning(db.roles, roleWrites, false);
    UpsertAllAt(db.roles.table, Puts(roleWrites), false, name);
  }

  /** A string of two names joined by a colon names that pair and no other. */
  lemma NamesOnePair(moduleName: string, action: string, otherModule: string, otherAction: string)
    requires ':' !in moduleName && ':' !in action
    ensures NamesPair(moduleName + ":" + action, otherModule, otherAction)
       <==> otherModule == moduleName && otherAction == action
  {
    SplitAfter(moduleName, ':', action);
    SplitPart(action, ':');
  }

  /** The permission of this module and action is linked to a template, and to its role, exactly when the
      grant is for all, or excepts other modules only, or lists a string that names it. */
  lemma LinkedExactlyWhenGranted(defs: Definitions, db: Db, name: string, moduleName: string, action: string)
    requires Sound(db) && !Seeded(defs, db).failed && Defined(defs.templates, name)
    requires
      var after := Seeded(defs, db).db;
      moduleName in after.modules.rows && (after.modules.rows[moduleName].id, action) in after.permissions.rows
    ensures
      var after := Seeded(defs, db).db;
      var p := after.permissions.rows[(after.modules.rows[moduleName].id, action)].id;
      var granted := match LastTemplate(defs.templates, name).grant
                     case All => true
                     case AllExcept(modules) => moduleName !in modules
                     case Listed(list) => exists text :: text in list && NamesPair(text, moduleName, action);
      && name in after.templates.table.rows && name in after.roles.table.rows
      && (p in Owned(after.templates.links, after.templates.table.rows[name].id) <==> granted)
      && (p in Owned(after.roles.links, after.roles.table.rows[name].id) <==> granted)
  {
    var after := Seeded(defs, db).db;
    SeededRolesHoldTheirTemplate(defs, db, name);
    SeedingKeepsKeys(defs, db);
    AllPermissionsDistinct(after.modules, after.permissions);
    var row := after.permissions.rows[(after.modules.rows[moduleName].id, action)];
    CoveredById(Catalogue(after), LastTemplate(defs.templates, name).grant, Permission(row.id, moduleName, action));
  }

  lemma CoveredById(all: set<Permission>, grant: Grant, p: Permission)
    requires Distinct(all) && p in all
    ensures p.id in Resolution(all, grant) <==>
      match grant
      case All => true
      case AllExcept(modules) => p.moduleName !in modules
      case Listed(list) => exists text :: text in list && NamesPair(text, p.moduleName, p.action)
  {
    if grant.Listed? {
      if text :| text in grant.list && NamesPair(text, p.moduleName, p.action) {
        var i :| 0 <= i < |grant.list| && grant.list[i] == text;
        assert Names(grant.list[i], p);
      }
      if i :| 0 <= i < |grant.list| && Names(grant.list[i], p) {
        assert grant.list[i] in grant.list;
      }
    }
  }

  /** A role no template names keeps its row and its links, whether or not the run fails. */
  lemma OtherRolesAreUntouched(defs: Definitions, db: Db, name: string)
    requires Sound(db) && name in db.roles.table.rows && !Defined(defs.templates, name)
    ensures
      var after := Seeded(defs, db).db;
      && name in after.roles.table.rows && after.roles.table.rows[name] == db.roles.table.rows[name]
      && Owned(after.roles.links, db.roles.table.rows[name].id) == Owned(db.roles.links, db.roles.table.rows[name].id)
  {
    var after := Seeded(defs, db).db;
    if !Seeded(defs, db).failed {
      var writes := RoleWrites(after.templates, defs.templates);
      RoleWritesAt(after.templates, defs.templates, name);
      UnnamedOwnersKeepTheirLinks(db.roles, writes, false, name);
    }
  }

  lemma OtherTemplatesAreUntouched(defs: Definitions, db: Db, name: string)
    requires Sound(db) && name in db.templates.table.rows && !Defined(defs.templates, name)
    ensures
      var after := Seeded(defs, db).db;
      var id := db.templates.table.rows[name].id;
      && name in after.templates.table.rows && after.templates.table.rows[name] == db.templates.table.rows[name]
      && Owned(after.templates.links, id) == Owned(db.templates.links, id)
  {
    var after := Seeded(defs, db).db;
    var writes := TemplateWrites(Catalogue(after), defs.templates).writes;
    if Named(Puts(writes), name) {
      TemplateWritesOnly(Catalogue(after), defs.templates, name);
    }
    UnnamedOwnersKeepTheirLinks(db.templates, writes, true, name);
  }

  lemma UnnamedOwnersKeepTheirLinks<V, R>(s: Linked<string, V, R>, writes: seq<Write<string, V>>, kept: R, name: string)
    requires Keyed(s.table) && name in s.table.rows && !Named(Puts(writes), name)
    ensures
      var u := RewriteAll(s, writes, kept);
      && name in u.table.rows && u.table.rows[name] == s.table.rows[name]
      && Owned(u.links, s.table.rows[name].id) == Owned(s.links, s.table.rows[name].id)
  {
    RewriteAllMeaning(s, writes, kept);
    UpsertAllAt(s.table, Puts(writes), kept, name);
    UpsertAllKeyed(s.table, Puts(writes), kept);
  }

  /** A run drops and renumbers nothing, and creates exactly the modules defined and the permissions
      defined under modules that exist. */
  lemma CatalogueIsAsDefined(defs: Definitions, db: Db, name: string, k: (nat, string))
    ensures
      var after := Seeded(defs, db).db;
      && UpsertedAt(db.modules, defs.modules, true, after.modules, name)
      && (k in after.permissions.rows <==>
            k in db.permissions.rows || PermissionDefined(after.modules, defs.permissions, k))
      && (k in db.permissions.rows ==> after.permissions.rows[k].id == db.permissions.rows[k].id)
      && (k in db.permissions.rows && !PermissionDefined(after.modules, defs.permissions, k) ==>
            after.permissions.rows[k] == db.permissions.rows[k])
      && (k in after.permissions.rows && k !in db.permissions.rows ==> after.permissions.rows[k].kept)
      && (forall i | LastToDefine(after.modules, defs.permissions, i, k) ::
            after.permissions.rows[k].written == Last(defs.permissions[i].permissions, k.1))
  {
    var after := Seeded(defs, db).db;
    forall i | LastToDefine(after.modules, defs.permissions, i, k)
      ensures Named(PermissionPuts(after.modules, defs.permissions), k)
      ensures Last(PermissionPuts(after.modules, defs.permissions), k) == Last(defs.permissions[i].permissions, k.1)
    {
      PermissionPutsLast(after.modules, defs.permissions, i, k);
    }
    UpsertAllAt(db.modules, defs.modules, true, name);
    PermissionPutsNamed(after.modules, defs.permissions, k);
    UpsertAllAt(db.permissions, PermissionPuts(after.modules, defs.permissions), true, k);
  }
}
