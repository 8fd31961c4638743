/** rbac.seed.ts: its four phases as loops over the definition lists. */
module RbacSeed {
  import opened Wrappers
  import opened Upserts
  import opened RbacModel
  import opened RbacSeedProofs

  class Seeder {
    var modules: Modules
    var permissions: Permissions
    var templates: Templates
    var roles: Roles

    ghost predicate Valid()
      reads this
    {
      Sound(State())
    }

    ghost function State(): Db
      reads this
    {
      Db(modules, permissions, templates, roles)
    }

    constructor (db: Db)
      requires Sound(db)
      ensures Valid() && State() == db
    {
      modules, permissions, templates, roles := db.modules, db.permissions, db.templates, db.roles;
    }

    method SeedModules(defs: seq<Put<string, ModuleText>>)
      requires Valid()
      modifies this`modules
      ensures Valid()
      ensures modules == UpsertAll(old(modules), defs, true)
    {
      var i := 0;
      while i < |defs|
        invariant i <= |defs|
        invariant modules == UpsertAll(old(modules), defs[..i], true)
      {
        modules := Upsert(modules, defs[i], true);
        i := i + 1;
        assert defs[..i][..i - 1] == defs[..i - 1];
      }
      assert defs[..i] == defs;
      UpsertAllKeyed(old(modules), defs, true);
      HousedAfterModules(old(modules), permissions, defs);
    }

    method SeedPermissions(groups: seq<PermissionGroup>)
      requires Valid()
      modifies this`permissions
      ensures Valid()
      ensures permissions == UpsertAll(old(permissions), PermissionPuts(modules, groups), true)
    {
      var i := 0;
      while i < |groups|
        invariant i <= |groups|
        invariant permissions == UpsertAll(old(permissions), PermissionPuts(modules, groups[..i]), true)
      {
        PermissionPutsStep(old(permissions), modules, groups, i);
        if groups[i].moduleName in modules.rows {
          SeedGroup(modules.rows[groups[i].moduleName].id, groups[i].permissions);
        }
        i := i + 1;
      }
      assert groups[..i] == groups;
      UpsertAllKeyed(old(permissions), PermissionPuts(modules, groups), true);
      HousedAfterPermissions(modules, old(permissions), groups);
    }

    method SeedGroup(moduleId: nat, defs: seq<Put<string, PermissionText>>)
      modifies this`permissions
      ensures permissions == UpsertAll(old(permissions), PutsUnder(moduleId, defs), true)
    {
      var j := 0;
      while j < |defs|
        invariant j <= |defs|
        invariant permissions == UpsertAll(old(permissions), PutsUnder(moduleId, defs[..j]), true)
      {
        permissions := Upsert(permissions, Put((moduleId, defs[j].key), defs[j].written), true);
        j := j + 1;
        assert defs[..j][..j - 1] == defs[..j - 1];
        var puts := PutsUnder(moduleId, defs[..j]);
        assert puts[..|puts| - 1] == PutsUnder(moduleId, defs[..j - 1]);
      }
      assert defs[..j] == defs;
    }

    /** permission.findMany with the module included, in any order. */
    method FindPermissions() returns (rows: seq<Permission>)
      requires Valid()
      ensures forall p :: p in rows <==> p in AllPermissions(modules, permissions)
      ensures forall i, j | 0 <= i < j < |rows| :: rows[i] != rows[j]
    {
      var all := AllPermissions(modules, permissions);
      var left := all;
      rows := [];
      while left != {}
        invariant forall p :: p in all <==> p in rows || p in left
        invariant forall p | p in rows :: p !in left
        invariant forall i, j | 0 <= i < j < |rows| :: rows[i] != rows[j]
        decreases |left|
        modifies {}
      {
        var p :| p in left;
        rows := rows + [p];
        left := left - {p};
      }
    }

    /** The ids a template asks for, in the order their links are created. */
    method ResolveTemplate(rows: seq<Permission>, grant: Grant) returns (ids: seq<nat>)
      requires Unrepeated(rows)
      ensures CreateAll(ids) == Granted(SetOf(rows), grant)
    {
      ids := [];
      match grant
      case All =>
        ids := IdsNotIn(rows, []);
        CreateFiltered(rows, grant, ids);
      case AllExcept(modules) =>
        ids := IdsNotIn(rows, modules);
        CreateFiltered(rows, grant, ids);
      case Listed(list) =>
        var i := 0;
        while i < |list|
          invariant i <= |list|
          invariant ids == Resolved(SetOf(rows), list[..i])
          modifies {}
        {
          var found := FindPermission(rows, list[i]);
          if found.Some? {
            ids := ids + [found.value];
          }
          i := i + 1;
          assert list[..i][..i - 1] == list[..i - 1];
        }
        assert list[..i] == list;
    }

    /** allPermissions.find: the first row the string names. */
    method FindPermission(rows: seq<Permission>, text: string) returns (found: Option<nat>)
      requires Distinct(SetOf(rows))
      ensures found == Find(SetOf(rows), text)
    {
      var i := 0;
      while i < |rows|
        invariant i <= |rows|
        invariant forall j | 0 <= j < i :: !Names(text, rows[j])
        modifies {}
      {
        if Names(text, rows[i]) {
          FindNames(SetOf(rows), text, rows[i]);
          return Some(rows[i].id);
        }
        i := i + 1;
      }
      return None;
    }

    /** role_template_permission rows deleted and created again; false if a create breaks the unique index. */
    method RewriteTemplate(d: Template, ids: seq<nat>) returns (ok: bool)
      modifies this`templates
      ensures ok == !CreateAll(ids).failed
      ensures templates == Rewrite(old(templates), Write(Put(d.name, d.text), CreateAll(ids).ids), true)
    {
      var table := Upsert(templates.table, Put(d.name, d.text), true);
      var id := table.rows[d.name].id;
      ghost var links := templates.links;
      templates := Linked(table, set l | l in templates.links && l.0 != id);
      assert templates.links == Relinked(links, id, {});
      var i := 0;
      while i < |ids|
        invariant i <= |ids|
        invariant templates.table == table && templates.links == Relinked(links, id, CreateAll(ids[..i]).ids)
        invariant !CreateAll(ids[..i]).failed
      {
        assert ids[..i + 1][..i] == ids[..i];
        if (id, ids[i]) in templates.links {
          FailureSticks(ids, i + 1);
          return false;
        }
        RelinkedOneMore(links, id, CreateAll(ids[..i]).ids, ids[i]);
        templates := templates.(links := templates.links + {(id, ids[i])});
        i := i + 1;
      }
      assert ids[..i] == ids;
      return true;
    }

    /** The template loop, over the permissions read before it began. */
    method RewriteTemplates(rows: seq<Permission>, defs: seq<Template>) returns (ok: bool)
      requires Unrepeated(rows)
      modifies this`templates
      ensures ok == !TemplateWrites(SetOf(rows), defs).failed
      ensures templates == RewriteAll(old(templates), TemplateWrites(SetOf(rows), defs).writes, true)
    {
      ghost var all := SetOf(rows);
      ok := true;
      var i := 0;
      while i < |defs| && ok
        invariant i <= |defs|
        invariant ok == !TemplateWrites(all, defs[..i]).failed
        invariant templates == RewriteAll(old(templates), TemplateWrites(all, defs[..i]).writes, true)
      {
        TemplateWritesStep(all, defs, i, old(templates));
        var ids := ResolveTemplate(rows, defs[i].grant);
        ok := RewriteTemplate(defs[i], ids);
        i := i + 1;
      }
      if ok {
        assert defs[..i] == defs;
      } else {
        AbortSticks(all, defs, i);
      }
    }

    method SeedRoleTemplates(defs: seq<Template>) returns (ok: bool)
      requires Valid()
      modifies this`templates
      ensures Valid()
      ensures ok == !TemplateWrites(AllPermissions(modules, permissions), defs).failed
      ensures
        var writes := TemplateWrites(AllPermissions(modules, permissions), defs).writes;
        templates == RewriteAll(old(templates), writes, true)
    {
      var rows := FindPermissions();
      assert SetOf(rows) == AllPermissions(modules, permissions);
      AllPermissionsDistinct(modules, permissions);
      ok := RewriteTemplates(rows, defs);
      RewriteAllKeyed(old(templates), TemplateWrites(SetOf(rows), defs).writes, true);
    }

    method SeedDefaultRoles(defs: seq<Template>)
      requires Valid()
      modifies this`roles
      ensures Valid()
      ensures roles == RewriteAll(old(roles), RoleWrites(templates, defs), false)
    {
      var i := 0;
      while i < |defs|
        invariant i <= |defs|
        invariant roles == RewriteAll(old(roles), RoleWrites(templates, defs[..i]), false)
      {
        RoleWritesStep(old(roles), templates, defs, i);
        if defs[i].name in templates.table.rows {
          var granted := Owned(templates.links, templates.table.rows[defs[i].name].id);
          CopyTemplate(defs[i], granted);
        }
        i := i + 1;
      }
      assert defs[..i] == defs;
      RewriteAllKeyed(old(roles), RoleWrites(templates, defs), false);
    }

    /** The role upserted, its links deleted, then one created per link of the template, in any order. */
    method CopyTemplate(d: Template, granted: set<nat>)
      modifies this`roles
      ensures roles == Rewrite(old(roles), Write(Put(d.name, RoleText(d.text.description, true, true)), granted), false)
    {
      var table := Upsert(roles.table, Put(d.name, RoleText(d.text.description, true, true)), false);
      var id := table.rows[d.name].id;
      ghost var links := roles.links;
      roles := Linked(table, set l | l in roles.links && l.0 != id);
      assert roles.links == Relinked(links, id, {});
      var left := granted;
      ghost var made := {};
      while left != {}
        invariant granted == left + made && roles.table == table && roles.links == Relinked(links, id, made)
        decreases |left|
      {
        var p :| p in left;
        RelinkedOneMore(links, id, made, p);
        roles := roles.(links := roles.links + {(id, p)});
        left, made := left - {p}, made + {p};
      }
      assert made == granted;
    }

    /** main: the later phases run only if the earlier ones did not throw. */
    method Seed(defs: Definitions) returns (ok: bool)
      requires Valid()
      modifies this
      ensures Valid()
      ensures State() == Seeded(defs, old(State())).db && ok == !Seeded(defs, old(State())).failed
    {
      SeedModules(defs.modules);
      SeedPermissions(defs.permissions);
      ok := SeedRoleTemplates(defs.templates);
      if ok {
        SeedDefaultRoles(defs.templates);
      }
    }
  }

  function SetOf(rows: seq<Permission>): set<Permission> {
    set p | p in rows
  }

  ghost predicate Unrepeated(rows: seq<Permission>) {
    Distinct(SetOf(rows)) && forall i, j | 0 <= i < j < |rows| :: rows[i] != rows[j]
  }

  function IdsNotIn(rows: seq<Permission>, modules: seq<string>): seq<nat> {
    if rows == [] then []
    else
      var last := rows[|rows| - 1];
      IdsNotIn(rows[..|rows| - 1], modules) + (if last.moduleName in modules then [] else [last.id])
  }

  lemma {:induction false} IdsNotInMembers(rows: seq<Permission>, modules: seq<string>, id: nat)
    ensures id in IdsNotIn(rows, modules) <==> exists p :: p in rows && p.moduleName !in modules && p.id == id
  {
    if rows != [] {
      var front, last := rows[..|rows| - 1], rows[|rows| - 1];
      IdsNotInMembers(front, modules, id);
      assert rows == front + [last];
    }
  }

  lemma {:induction false} IdsNotInDistinct(rows: seq<Permission>, modules: seq<string>)
    requires Unrepeated(rows)
    ensures !Repeats(IdsNotIn(rows, modules))
  {
    if rows != [] {
      var front, last := rows[..|rows| - 1], rows[|rows| - 1];
      IdsNotInDistinct(front, modules);
      if last.moduleName !in modules {
        IdsNotInMembers(front, modules, last.id);
        RepeatsSnoc(IdsNotIn(front, modules), last.id);
        assert forall i | 0 <= i < |front| :: front[i] == rows[i] && rows[i] in SetOf(rows) && last in SetOf(rows);
      }
    }
  }

  lemma CreateFiltered(rows: seq<Permission>, grant: Grant, ids: seq<nat>)
    requires Unrepeated(rows)
    requires !grant.Listed? && ids == IdsNotIn(rows, if grant.All? then [] else grant.modules)
    ensures CreateAll(ids) == Granted(SetOf(rows), grant)
  {
    var modules := if grant.All? then [] else grant.modules;
    IdsNotInDistinct(rows, modules);
    CreateAllMeaning(ids);
    forall id ensures id in ids <==> id in Resolution(SetOf(rows), grant) {
      IdsNotInMembers(rows, modules, id);
      if p :| p in rows && p.moduleName !in modules && p.id == id {
        assert p in SetOf(rows) && Covers(grant, p);
      }
    }
    assert CreateAll(ids).ids == Resolution(SetOf(rows), grant);
  }

  lemma {:induction false} FailureSticks(ids: seq<nat>, n: nat)
    requires n <= |ids| && CreateAll(ids[..n]).failed
    ensures CreateAll(ids) == CreateAll(ids[..n])
    decreases |ids|
  {
    if n == |ids| {
      assert ids[..n] == ids;
    } else {
      var front := ids[..|ids| - 1];
      assert front[..n] == ids[..n];
      FailureSticks(front, n);
    }
  }

  lemma {:induction false} AbortSticks(all: set<Permission>, defs: seq<Template>, n: nat)
    requires n <= |defs| && TemplateWrites(all, defs[..n]).failed
    ensures TemplateWrites(all, defs) == TemplateWrites(all, defs[..n])
    decreases |defs|
  {
    if n == |defs| {
      assert defs[..n] == defs;
    } else {
      var front := defs[..|defs| - 1];
      assert front[..n] == defs[..n];
      AbortSticks(all, front, n);
    }
  }

  lemma PermissionPutsStep(t: Permissions, modules: Modules, groups: seq<PermissionGroup>, i: nat)
    requires i < |groups|
    ensures
      var before := UpsertAll(t, PermissionPuts(modules, groups[..i]), true);
      UpsertAll(t, PermissionPuts(modules, groups[..i + 1]), true) ==
        if groups[i].moduleName in modules.rows
        then UpsertAll(before, PutsUnder(modules.rows[groups[i].moduleName].id, groups[i].permissions), true)
        else before
  {
    var puts := PermissionPuts(modules, groups[..i]);
    assert groups[..i + 1][..i] == groups[..i];
    if groups[i].moduleName in modules.rows {
      UpsertAllAppend(t, puts, PutsUnder(modules.rows[groups[i].moduleName].id, groups[i].permissions), true);
    } else {
      assert PermissionPuts(modules, groups[..i + 1]) == puts + [] == puts;
    }
  }

  lemma RoleWritesStep(s: Roles, from: Templates, defs: seq<Template>, i: nat)
    requires i < |defs|
    ensures
      var before := RewriteAll(s, RoleWrites(from, defs[..i]), false);
      RewriteAll(s, RoleWrites(from, defs[..i + 1]), false) ==
        if defs[i].name in from.table.rows
        then Rewrite(before, RoleWrite(from, defs[i]), false)
        else before
  {
    var writes := RoleWrites(from, defs[..i]);
    assert defs[..i + 1][..i] == defs[..i];
    var after := RoleWrites(from, defs[..i + 1]);
    if defs[i].name in from.table.rows {
      assert after[..|after| - 1] == writes;
    } else {
      assert after == writes + [] == writes;
    }
  }

  lemma TemplateWritesStep(all: set<Permission>, defs: seq<Template>, i: nat, s: Templates)
    requires i < |defs| && !TemplateWrites(all, defs[..i]).failed
    ensures
      var before, after := TemplateWrites(all, defs[..i]), TemplateWrites(all, defs[..i + 1]);
      var granted := Granted(all, defs[i].grant);
      after.failed == granted.failed
    ensures
      var before, after := TemplateWrites(all, defs[..i]), TemplateWrites(all, defs[..i + 1]);
      var granted := Granted(all, defs[i].grant);
      var write := Write(Put(defs[i].name, defs[i].text), granted.ids);
      RewriteAll(s, after.writes, true) == Rewrite(RewriteAll(s, before.writes, true), write, true)
  {
    assert defs[..i + 1][..i] == defs[..i];
    var writes := TemplateWrites(all, defs[..i + 1]).writes;
    assert writes[..|writes| - 1] == TemplateWrites(all, defs[..i]).writes;
  }

  lemma {:induction false} UpsertAllAppend<K, V, R>(t: Table<K, V, R>, a: seq<Put<K, V>>, b: seq<Put<K, V>>, kept: R)
    ensures UpsertAll(t, a + b, kept) == UpsertAll(UpsertAll(t, a, kept), b, kept)
  {
    if b == [] {
      assert a + b == a;
    } else {
      UpsertAllAppend(t, a, b[..|b| - 1], kept);
      assert (a + b)[..|a + b| - 1] == a + b[..|b| - 1];
    }
  }

  lemma RelinkedOneMore(links: Links, id: nat, made: set<nat>, p: nat)
    ensures Relinked(links, id, made + {p}) == Relinked(links, id, made) + {(id, p)}
  {
  }

  lemma RewriteAllKeyed<K(!new), V, R>(s: Linked<K, V, R>, writes: seq<Write<K, V>>, kept: R)
    requires Keyed(s.table)
    ensures Keyed(RewriteAll(s, writes, kept).table)
  {
    RewriteAllMeaning(s, writes, kept);
    UpsertAllKeyed(s.table, Puts(writes), kept);
  }
}
