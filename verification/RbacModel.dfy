/** The tables rbac.seed.ts writes, its definition lists, and what its four phases leave behind. */
module RbacModel {
  import opened Wrappers
  import opened Strings
  import opened Upserts

  datatype ModuleText = ModuleText(displayName: string, description: string, sortOrder: int, icon: string)
  datatype PermissionText = PermissionText(displayName: string, description: string)
  datatype TemplateText = TemplateText(description: string, isSystemTemplate: bool)
  datatype RoleText = RoleText(description: string, isSystem: bool, isActive: bool)

  /** A template's `permissions`: the two markers, or a list of "module:action" strings. */
  datatype Grant = All | AllExcept(modules: seq<string>) | Listed(list: seq<string>)

  datatype PermissionGroup = PermissionGroup(moduleName: string, permissions: seq<Put<string, PermissionText>>)
  datatype Template = Template(name: string, text: TemplateText, grant: Grant)

  datatype Definitions = Definitions(
    modules: seq<Put<string, ModuleText>>,
    permissions: seq<PermissionGroup>,
    templates: seq<Template>)

  /** `kept` is is_active for modules, permissions and templates, and whether deleted_at is set for roles. */
  type Modules = Table<string, ModuleText, bool>
  type Permissions = Table<(nat, string), PermissionText, bool>
  type Templates = Linked<string, TemplateText, bool>
  type Roles = Linked<string, RoleText, bool>

  /** A row of permission.findMany with its module included. */
  datatype Permission = Permission(id: nat, moduleName: string, action: string)

  datatype Db = Db(modules: Modules, permissions: Permissions, templates: Templates, roles: Roles)

  datatype Outcome = Outcome(db: Db, failed: bool)

  /** The foreign key of permissions: every module id in the table is some module's. */
  ghost predicate Housed(modules: Modules, permissions: Permissions) {
    forall k | k in permissions.rows :: HasModule(modules, k.0)
  }

  ghost predicate HasModule(modules: Modules, id: nat) {
    exists m :: m in modules.rows && modules.rows[m].id == id
  }

  /** What the database enforces: primary keys, and the foreign key of permissions. */
  ghost predicate Sound(db: Db) {
    && Keyed(db.modules) && Keyed(db.permissions) && Keyed(db.templates.table) && Keyed(db.roles.table)
    && Housed(db.modules, db.permissions)
  }

  function PutsUnder(moduleId: nat, permissions: seq<Put<string, PermissionText>>): seq<Put<(nat, string),
    PermissionText>> {
    if permissions == [] then []
    else
      var last := permissions[|permissions| - 1];
      PutsUnder(moduleId, permissions[..|permissions| - 1]) + [Put((moduleId, last.key), last.written)]
  }

  /** The permission upserts; a group whose module does not exist is skipped. */
  function PermissionPuts(modules: Modules, groups: seq<PermissionGroup>): seq<Put<(nat, string), PermissionText>> {
    if groups == [] then []
    else
      var last := groups[|groups| - 1];
      PermissionPuts(modules, groups[..|groups| - 1])
      + (if last.moduleName in modules.rows then PutsUnder(modules.rows[last.moduleName].id, last.permissions) else [])
  }

  function AllPermissions(modules: Modules, permissions: Permissions): set<Permission> {
    set m, k | m in modules.rows && k in permissions.rows && modules.rows[m].id == k.0 ::
      Permission(permissions.rows[k].id, m, k.1)
  }

  /** The string's first two colon-separated parts. */
  predicate NamesPair(text: string, moduleName: string, action: string) {
    var parts := Split(text, ':');
    |parts| >= 2 && parts[0] == moduleName && parts[1] == action
  }

  predicate Names(text: string, p: Permission) {
    NamesPair(text, p.moduleName, p.action)
  }

  /** What a grant is meant to cover. */
  predicate Covers(grant: Grant, p: Permission) {
    match grant
    case All => true
    case AllExcept(modules) => p.moduleName !in modules
    case Listed(list) => exists i :: 0 <= i < |list| && Names(list[i], p)
  }

  ghost function Resolution(all: set<Permission>, grant: Grant): set<nat> {
    set p | p in all && Covers(grant, p) :: p.id
  }

  /** The database knows one permission per name and one name per id. */
  ghost predicate Distinct(all: set<Permission>) {
    && (forall p, q | p in all && q in all && p.id == q.id :: p == q)
    && (forall p, q | p in all && q in all && p.moduleName == q.moduleName && p.action == q.action :: p == q)
  }

  ghost function Find(all: set<Permission>, text: string): Option<nat> {
    if exists p :: p in all && Names(text, p) then
      var p :| p in all && Names(text, p);
      Some(p.id)
    else None
  }

  /** The ids pushed for a list, in its order; a string that names no permission is skipped. */
  ghost function Resolved(all: set<Permission>, list: seq<string>): seq<nat> {
    if list == [] then []
    else
      var found := Find(all, list[|list| - 1]);
      Resolved(all, list[..|list| - 1]) + (if found.Some? then [found.value] else [])
  }

  /** The links made before a create breaks the unique index, if one does. */
  datatype Created = Created(ids: set<nat>, failed: bool)

  function CreateAll(ids: seq<nat>): Created {
    if ids == [] then Created({}, false)
    else
      var before, last := CreateAll(ids[..|ids| - 1]), ids[|ids| - 1];
      if before.failed then before
      else if last in before.ids then Created(before.ids, true)
      else Created(before.ids + {last}, false)
  }

  ghost function Granted(all: set<Permission>, grant: Grant): Created {
    if grant.Listed? then CreateAll(Resolved(all, grant.list)) else Created(Resolution(all, grant), false)
  }

  datatype Progress = Progress(writes: seq<Write<string, TemplateText>>, failed: bool)

  /** The template phase stops at the first template whose links cannot all be created. */
  ghost function TemplateWrites(all: set<Permission>, templates: seq<Template>): Progress {
    if templates == [] then Progress([], false)
    else
      var before, last := TemplateWrites(all, templates[..|templates| - 1]), templates[|templates| - 1];
      if before.failed then before
      else
        var granted := Granted(all, last.grant);
        Progress(before.writes + [Write(Put(last.name, last.text), granted.ids)], granted.failed)
  }

  function RoleWrite(from: Templates, d: Template): Write<string, RoleText>
    requires d.name in from.table.rows
  {
    Write(Put(d.name, RoleText(d.text.description, true, true)), Owned(from.links, from.table.rows[d.name].id))
  }

  /** The role phase copies each template's links; a template that does not exist is skipped. */
  function RoleWrites(from: Templates, templates: seq<Template>): seq<Write<string, RoleText>> {
    if templates == [] then []
    else
      var last := templates[|templates| - 1];
      RoleWrites(from, templates[..|templates| - 1])
      + if last.name in from.table.rows then [RoleWrite(from, last)] else []
  }

  ghost function Seeded(defs: Definitions, db: Db): Outcome {
    var modules := UpsertAll(db.modules, defs.modules, true);
    var permissions := UpsertAll(db.permissions, PermissionPuts(modules, defs.permissions), true);
    var progress := TemplateWrites(AllPermissions(modules, permissions), defs.templates);
    var templates := RewriteAll(db.templates, progress.writes, true);
    var roles :=
      if progress.failed then db.roles else RewriteAll(db.roles, RoleWrites(templates, defs.templates), false);
    Outcome(Db(modules, permissions, templates, roles), progress.failed)
  }
}
