/** The role repository, the one-pass role reader, and the service with its per-role loop. */
module RbacService {
  import opened Basics
  import opened Rbac
  import opened RbacRuns

  class RbacRepository {
    var tables: Tables

    constructor (tables: Tables)
      ensures this.tables == tables
    {
      this.tables := tables;
    }

    /** The id of the row with this name, inserting one when there is none. */
    method EnsurePermission(p: Permission, newId: Id) returns (id: Id)
      requires UniqueNames(tables.permissions) && newId !in tables.permissions
      modifies this
      ensures tables == old(tables).(permissions := WithPermission(old(tables).permissions, p, newId))
      ensures id in tables.permissions && tables.permissions[id].name == p.name
    {
      var named := set x | x in tables.permissions && tables.permissions[x].name == p.name;
      if NameTaken(tables.permissions, p.name) {
        ghost var x :| x in tables.permissions && tables.permissions[x].name == p.name;
        assert x in named;
      }
      if named != {} {
        id := AnyOf(named);
      } else {
        id := newId;
        tables := tables.(permissions := tables.permissions[id := PermissionRow(p.name, p.description)]);
      }
    }

    method UpdateRole(role: Role, newIds: seq<Id>) returns (ok: bool)
      requires tables.Constrained() && role.roleId in tables.roles
      requires |newIds| == |role.permissions| && Distinct(newIds)
      requires forall i :: 0 <= i < |newIds| ==> newIds[i] !in tables.permissions
      modifies this
      ensures ok <==> forall id :: id in old(tables).roles && id != role.roleId ==> old(tables).roles[id].name != role.name
      ensures tables == if ok then Synced(old(tables), role, newIds) else old(tables)
    {
      if exists id :: id in tables.roles && id != role.roleId && tables.roles[id].name == role.name {
        return false;
      }
      ghost var was := tables;
      tables := tables.(roles := tables.roles[role.roleId := RoleRow(role.name, role.description)]);
      var current := LinkedTo(tables.links, role.roleId);
      var desired := DesiredIds(role, newIds);
      tables := tables.(links := tables.links - LinksTo(role.roleId, current - desired));
      InsertLinks(role.roleId, desired - current);
      SyncingLinks(was.links, role.roleId, current, desired);
      return true;
    }

    method DesiredIds(role: Role, newIds: seq<Id>) returns (desired: set<Id>)
      requires UniqueNames(tables.permissions)
      requires |newIds| == |role.permissions| && Distinct(newIds)
      requires forall i :: 0 <= i < |newIds| ==> newIds[i] !in tables.permissions
      modifies this
      ensures tables == old(tables).(permissions := WithPermissions(old(tables).permissions, role.permissions, newIds))
      ensures desired == Wanted(tables.permissions, role.permissions)
    {
      desired := {};
      assert forall id :: id !in Wanted(tables.permissions, role.permissions[..0]);
      for n := 0 to |role.permissions|
        invariant tables == old(tables).(permissions := WithPermissions(old(tables).permissions, role.permissions[..n], newIds))
        invariant desired == Wanted(tables.permissions, role.permissions[..n])
      {
        WantedNext(old(tables).permissions, role.permissions, newIds, n);
        var id := EnsurePermission(role.permissions[n], newIds[n]);
        desired := desired + {id};
      }
      assert role.permissions[..|role.permissions|] == role.permissions;
    }

    method InsertLinks(roleId: Id, ids: set<Id>)
      modifies this
      ensures tables == old(tables).(links := old(tables).links + LinksTo(roleId, ids))
    {
      var rest := ids;
      while rest != {}
        invariant rest <= ids
        invariant tables == old(tables).(links := old(tables).links + LinksTo(roleId, ids - rest))
        decreases |rest|
      {
        var id := AnyOf(rest);
        assert LinksTo(roleId, ids - (rest - {id})) == LinksTo(roleId, ids - rest) + {Link(roleId, id)};
        tables := tables.(links := tables.links + {Link(roleId, id)});
        rest := rest - {id};
      }
      assert ids - rest == ids;
    }

    /** Links first, then assignments, then the role. */
    method DeleteRole(roleId: Id)
      modifies this
      ensures tables == WithoutRole(old(tables), roleId)
    {
      tables := tables.(links := tables.links - (set l | l in tables.links && l.roleId == roleId));
      assert tables.links == LinksOfOthers(old(tables).links, roleId);
      tables := tables.(userRoles := map a | a in tables.userRoles && a.roleId != roleId :: tables.userRoles[a]);
      tables := tables.(roles := tables.roles - {roleId});
    }

    /** The role, its permissions read through the join in some order. */
    method AcquireRole(roleId: Id) returns (r: Option<Role>)
      ensures r.Some? <==> roleId in tables.roles
      ensures r.Some? ==> r.value.roleId == roleId && LoadedRole(tables, r.value)
    {
      if roleId !in tables.roles {
        return None;
      }
      var ids := Listed(set id | id in tables.permissions && Link(roleId, id) in tables.links);
      var permissions: seq<Permission> := [];
      for n := 0 to |ids|
        invariant |permissions| == n
        invariant forall i :: 0 <= i < n ==> ids[i] in tables.permissions && permissions[i].name == tables.permissions[ids[i]].name
      {
        var row := tables.permissions[ids[n]];
        permissions := permissions + [Permission(row.name, row.description)];
      }
      var role := Role(roleId, tables.roles[roleId].name, tables.roles[roleId].description, permissions);
      forall name ensures role.HasPermission(name) <==> Holds(tables, roleId, name) {
        JoinHolds(tables, roleId, ids, permissions, name);
      }
      r := Some(role);
    }

    /** The roles of a user's assignments, in some order. */
    method AcquireByUserId(userId: Id) returns (roleIds: seq<Id>)
      ensures forall id :: id in roleIds <==> Assignment(userId, id) in tables.userRoles
      ensures Distinct(roleIds)
    {
      var mine := set a | a in tables.userRoles && a.userId == userId :: a.roleId;
      roleIds := Listed(mine);
      forall id ensures id in mine <==> Assignment(userId, id) in tables.userRoles {
        if Assignment(userId, id) in tables.userRoles {
          assert Assignment(userId, id).roleId in mine;
        }
      }
    }
  }

  /** Random identifiers do not repeat and are not in use. */
  ghost predicate Unused(permissions: map<Id, PermissionRow>, uuid: nat -> Id) {
    && (forall i: nat, j: nat :: i != j ==> uuid(i) != uuid(j))
    && (forall i: nat :: uuid(i) !in permissions)
  }

  method NewIds(ghost permissions: map<Id, PermissionRow>, uuid: nat -> Id, n: nat) returns (ids: seq<Id>)
    requires Unused(permissions, uuid)
    ensures |ids| == n && Distinct(ids) && forall i :: 0 <= i < n ==> ids[i] !in permissions
    ensures forall i :: 0 <= i < n ==> ids[i] == uuid(i)
  {
    ids := seq(n, i requires 0 <= i < n => uuid(i));
    forall i, j | 0 <= i < j < n ensures ids[i] != ids[j] {
      assert uuid(i) != uuid(j);
    }
  }

  lemma OwnNameIsFree(t: Tables, role: Role)
    requires t.Constrained() && LoadedRole(t, role)
    ensures forall id :: id in t.roles && id != role.roleId ==> t.roles[id].name != role.name
  {
    assert t.roles[role.roleId].name == role.name;
  }

  /** Whichever row carries the next name, it is the one row that becomes wanted. */
  lemma WantedNext(was: map<Id, PermissionRow>, ps: seq<Permission>, newIds: seq<Id>, n: nat)
    requires UniqueNames(was) && n < |ps| && |newIds| == |ps| && Distinct(newIds)
    requires forall i :: 0 <= i < |newIds| ==> newIds[i] !in was
    ensures var before, after := WithPermissions(was, ps[..n], newIds), WithPermissions(was, ps[..n + 1], newIds);
            && after == WithPermission(before, ps[n], newIds[n])
            && UniqueNames(before) && newIds[n] !in before
            && forall id :: id in after && after[id].name == ps[n].name ==>
                 Wanted(after, ps[..n + 1]) == Wanted(before, ps[..n]) + {id}
  {
    assert ps[..n + 1][..n] == ps[..n];
    assert ps[..n + 1] == ps[..n] + [ps[n]];
    assert newIds[n] !in newIds[..n];
    PermissionsMore(was, ps[..n], newIds, "");
    var before, after := WithPermissions(was, ps[..n], newIds), WithPermissions(was, ps[..n + 1], newIds);
    forall id | id in after && after[id].name == ps[n].name
      ensures Wanted(after, ps[..n + 1]) == Wanted(before, ps[..n]) + {id}
    {
      WantedOneMore(before, ps[..n], ps[n], newIds[n], id);
    }
  }

  lemma WantedOneMore(permissions: map<Id, PermissionRow>, ps: seq<Permission>, p: Permission, newId: Id, id: Id)
    requires UniqueNames(permissions) && newId !in permissions
    requires id in WithPermission(permissions, p, newId) && WithPermission(permissions, p, newId)[id].name == p.name
    ensures Wanted(WithPermission(permissions, p, newId), ps + [p]) == Wanted(permissions, ps) + {id}
  {
    var after := WithPermission(permissions, p, newId);
    OnePermissionMore(permissions, p, newId, p.name);
    forall x | x in after ensures x in Wanted(after, ps + [p]) <==> x in Wanted(permissions, ps) + {id} {
      MentionsOneMore(ps, p, after[x].name);
    }
  }

  lemma JoinHolds(t: Tables, roleId: Id, ids: seq<Id>, permissions: seq<Permission>, name: string)
    requires forall i :: 0 <= i < |ids| ==> ids[i] in t.permissions && Link(roleId, ids[i]) in t.links
    requires forall id :: id in t.permissions && Link(roleId, id) in t.links ==> id in ids
    requires |permissions| == |ids|
    requires forall i :: 0 <= i < |ids| ==> permissions[i].name == t.permissions[ids[i]].name
    ensures Mentions(permissions, name) <==> Holds(t, roleId, name)
  {
    if Mentions(permissions, name) {
      var i :| 0 <= i < |permissions| && permissions[i].name == name;
      assert Link(roleId, ids[i]) in t.links;
    }
    if Holds(t, roleId, name) {
      var id :| Link(roleId, id) in t.links && id in t.permissions && t.permissions[id].name == name;
      assert id in ids;
      var i :| 0 <= i < |ids| && ids[i] == id;
      assert permissions[i].name == name;
    }
  }

  // ----- the per-role loop -----

  function NamesIn(permissions: seq<Permission>): set<string> {
    set i | 0 <= i < |permissions| :: permissions[i].name
  }

  function RoleAsView(role: Role): RoleView {
    RoleView(role.roleId, role.name, role.description, NamesIn(role.permissions))
  }

  function RolesAsViews(roles: seq<Role>): (views: seq<RoleView>)
    ensures |views| == |roles| && forall i :: 0 <= i < |roles| ==> views[i] == RoleAsView(roles[i])
  {
    if roles == [] then [] else RolesAsViews(roles[..|roles| - 1]) + [RoleAsView(roles[|roles| - 1])]
  }

  lemma LoadedRoleIsItsView(t: Tables, role: Role)
    requires LoadedRole(t, role)
    ensures RoleAsView(role) == ViewOf(t, role.roleId)
  {
    forall name ensures name in NamesIn(role.permissions) <==> name in NamesOf(t, role.roleId) {
      assert name in NamesIn(role.permissions) <==> role.HasPermission(name);
      assert name in NamesOf(t, role.roleId) <==> Holds(t, role.roleId, name);
    }
  }

  class RBACService {
    const repo: RbacRepository

    constructor (repo: RbacRepository)
      ensures this.repo == repo
    {
      this.repo := repo;
    }

    /** One query for the assignments, then two for each role. */
    method GetUserRoles(userId: Id) returns (roles: seq<Role>)
      ensures Shows(repo.tables, AssignedRoles(repo.tables, userId), RolesAsViews(roles))
      ensures forall i :: 0 <= i < |roles| ==> LoadedRole(repo.tables, roles[i])
      ensures forall i :: 0 <= i < |roles| ==> Assignment(userId, roles[i].roleId) in repo.tables.userRoles
      ensures forall id :: id in repo.tables.roles && Assignment(userId, id) in repo.tables.userRoles ==>
        exists i :: 0 <= i < |roles| && roles[i].roleId == id
    {
      var roleIds := repo.AcquireByUserId(userId);
      roles := [];
      for n := 0 to |roleIds|
        invariant ShowsSome(repo.tables, userId, roleIds[..n], roles)
      {
        assert roleIds[..n + 1] == roleIds[..n] + [roleIds[n]];
        assert roleIds[n] in roleIds && roleIds[n] !in roleIds[..n];
        var role := repo.AcquireRole(roleIds[n]);
        if role.Some? {
          ShowsOneMore(repo.tables, userId, roleIds[..n], roles, role.value);
          roles := roles + [role.value];
        }
      }
      assert roleIds[..|roleIds|] == roleIds;
      ShowsAll(repo.tables, userId, roleIds, roles);
    }

    method CreateRole(roleId: Id, name: string, description: Option<string>) returns (outcome: Outcome)
      requires roleId !in repo.tables.roles
      modifies repo
      ensures outcome == OutcomeOf(old(repo.tables), Action.CreateRole(roleId, name, description))
      ensures repo.tables == Step(old(repo.tables), Action.CreateRole(roleId, name, description))
    {
      if RoleNameTaken(repo.tables.roles, name) {
        return RoleAlreadyExists;
      }
      repo.tables := repo.tables.(roles := repo.tables.roles[roleId := RoleRow(name, description)]);
      return Done;
    }

    method DeleteRole(roleId: Id) returns (outcome: Outcome)
      modifies repo
      ensures outcome == OutcomeOf(old(repo.tables), Action.DeleteRole(roleId))
      ensures repo.tables == Step(old(repo.tables), Action.DeleteRole(roleId))
    {
      var role := repo.AcquireRole(roleId);
      if role.None? {
        return RoleNotFound;
      }
      if role.value.name == DEFAULT_ROLE_ADMIN {
        return PermissionDenied;
      }
      repo.DeleteRole(roleId);
      return Done;
    }

    method AssignRole(userId: Id, roleId: Id, assignedAt: Time, assignedBy: Option<Id>) returns (outcome: Outcome)
      modifies repo
      ensures outcome == OutcomeOf(old(repo.tables), Action.AssignRole(userId, roleId, assignedAt, assignedBy))
      ensures repo.tables == Step(old(repo.tables), Action.AssignRole(userId, roleId, assignedAt, assignedBy))
    {
      if userId !in repo.tables.users {
        return UserNotFound;
      }
      if roleId !in repo.tables.roles {
        return RoleNotFound;
      }
      if Assignment(userId, roleId) in repo.tables.userRoles {
        return Done;
      }
      if assignedBy.Some? && assignedBy.value !in repo.tables.users {
        return IntegrityError;
      }
      repo.tables := repo.tables.(userRoles := repo.tables.userRoles[Assignment(userId, roleId) := Assigned(assignedAt, assignedBy)]);
      return Done;
    }

    method RevokeRole(userId: Id, roleId: Id) returns (outcome: Outcome)
      modifies repo
      ensures outcome == OutcomeOf(old(repo.tables), Action.RevokeRole(userId, roleId))
      ensures repo.tables == Step(old(repo.tables), Action.RevokeRole(userId, roleId))
    {
      if userId !in repo.tables.users {
        return UserNotFound;
      }
      var role := repo.AcquireRole(roleId);
      if role.None? {
        return RoleNotFound;
      }
      if role.value.name == DEFAULT_ROLE_ADMIN {
        return PermissionDenied;
      }
      repo.tables := repo.tables.(userRoles := repo.tables.userRoles - {Assignment(userId, roleId)});
      return Done;
    }

    method AddPermissionToRole(roleId: Id, permission: string, newId: Id, uuid: nat -> Id) returns (outcome: Outcome)
      requires repo.tables.Constrained() && newId !in repo.tables.permissions
      requires Unused(repo.tables.permissions, uuid) && forall i: nat :: uuid(i) != newId
      modifies repo
      ensures outcome == OutcomeOf(old(repo.tables), AddPermission(roleId, permission, newId))
      ensures repo.tables == Step(old(repo.tables), AddPermission(roleId, permission, newId))
    {
      ghost var was := repo.tables;
      var role := repo.AcquireRole(roleId);
      if role.None? {
        return RoleNotFound;
      }
      var p := Permission(permission, None);
      OnePermissionMore(was.permissions, p, newId, permission);
      var _ := repo.EnsurePermission(p, newId);
      var updated := role.value.AddPermission(p);
      var newIds := NewIds(was.permissions, uuid, |updated.permissions|);
      AddingStoresOneLink(was, role.value, p, newId, newIds);
      OwnNameIsFree(was, role.value);
      var _ := repo.UpdateRole(updated, newIds);
      return Done;
    }

    method RemovePermissionFromRole(roleId: Id, permission: string, uuid: nat -> Id) returns (outcome: Outcome)
      requires repo.tables.Constrained() && Unused(repo.tables.permissions, uuid)
      modifies repo
      ensures outcome == OutcomeOf(old(repo.tables), RemovePermission(roleId, permission))
      ensures repo.tables == Step(old(repo.tables), RemovePermission(roleId, permission))
    {
      var role := repo.AcquireRole(roleId);
      if role.None? {
        return RoleNotFound;
      }
      var updated := role.value.RemovePermission(permission);
      var newIds := NewIds(repo.tables.permissions, uuid, |updated.permissions|);
      RemovingStoresOneLinkLess(repo.tables, role.value, permission, newIds);
      OwnNameIsFree(repo.tables, role.value);
      var _ := repo.UpdateRole(updated, newIds);
      return Done;
    }

    method HasPermission(userId: Id, permission: string) returns (allowed: bool)
      ensures allowed <==> Grants(repo.tables, userId, permission)
    {
      var roles := GetUserRoles(userId);
      allowed := exists i :: 0 <= i < |roles| && roles[i].HasPermission(permission);
      LoopChecks(repo.tables, userId, roles, permission);
    }
  }

  /** The roles loaded for the first assignments. */
  ghost predicate ShowsSome(t: Tables, userId: Id, roleIds: seq<Id>, roles: seq<Role>) {
    && (forall i :: 0 <= i < |roles| ==> roles[i].roleId in roleIds && LoadedRole(t, roles[i]))
    && (forall id :: id in roleIds && id in t.roles ==> exists i :: 0 <= i < |roles| && roles[i].roleId == id)
    && (forall i, j :: 0 <= i < j < |roles| ==> roles[i].roleId != roles[j].roleId)
  }

  lemma ShowsOneMore(t: Tables, userId: Id, roleIds: seq<Id>, roles: seq<Role>, role: Role)
    requires ShowsSome(t, userId, roleIds, roles) && LoadedRole(t, role) && role.roleId !in roleIds
    ensures ShowsSome(t, userId, roleIds + [role.roleId], roles + [role])
  {
    var more := roles + [role];
    forall id | id in roleIds + [role.roleId] && id in t.roles ensures exists i :: 0 <= i < |more| && more[i].roleId == id {
      if id == role.roleId {
        assert more[|roles|].roleId == id;
      } else {
        var i :| 0 <= i < |roles| && roles[i].roleId == id;
        assert more[i].roleId == id;
      }
    }
  }

  lemma ShowsAll(t: Tables, userId: Id, roleIds: seq<Id>, roles: seq<Role>)
    requires ShowsSome(t, userId, roleIds, roles)
    requires forall id :: id in roleIds <==> Assignment(userId, id) in t.userRoles
    ensures Shows(t, AssignedRoles(t, userId), RolesAsViews(roles))
  {
    var views := RolesAsViews(roles);
    forall i | 0 <= i < |roles| ensures views[i] == ViewOf(t, roles[i].roleId) {
      LoadedRoleIsItsView(t, roles[i]);
    }
    forall id | id in AssignedRoles(t, userId) ensures ViewOf(t, id) in views {
      var i :| 0 <= i < |roles| && roles[i].roleId == id;
      assert views[i] == ViewOf(t, id);
    }
  }

  // ----- the one-pass grouped outer join -----

  /** A row of the join: a role with one of its links, or with none when it has none. */
  datatype JoinKey = JoinKey(roleId: Id, permissionId: Option<Id>)

  datatype JoinRow = JoinRow(id: Id, name: string, description: Option<string>, permissionName: Option<string>)

  datatype RoleReadDTO = RoleReadDTO(roleId: Id, name: string, description: Option<string>, permissions: seq<string>)

  ghost predicate InJoin(t: Tables, ids: set<Id>, k: JoinKey) {
    k.roleId in ids && k.roleId in t.roles &&
    match k.permissionId
    case Some(p) => Link(k.roleId, p) in t.links
    case None => forall l :: l in t.links ==> l.roleId != k.roleId
  }

  function RowOf(t: Tables, k: JoinKey): JoinRow
    requires k.roleId in t.roles
  {
    JoinRow(k.roleId, t.roles[k.roleId].name, t.roles[k.roleId].description,
            if k.permissionId.Some? && k.permissionId.value in t.permissions
            then Some(t.permissions[k.permissionId.value].name) else None)
  }

  /** What the query may return: every row of the join once, in any order. */
  ghost predicate IsJoin(t: Tables, ids: set<Id>, keys: seq<JoinKey>, rows: seq<JoinRow>) {
    && Distinct(keys) && (forall k :: k in keys <==> InJoin(t, ids, k))
    && |rows| == |keys| && forall i :: 0 <= i < |keys| ==> keys[i].roleId in t.roles && rows[i] == RowOf(t, keys[i])
  }

  /** The permission names of one role, in the order of the rows. */
  function NamesFor(rows: seq<JoinRow>, id: Id): seq<string> {
    if rows == [] then []
    else
      var last := rows[|rows| - 1];
      NamesFor(rows[..|rows| - 1], id) + if last.id == id && last.permissionName.Some? then [last.permissionName.value] else []
  }

  predicate FirstRowOf(rows: seq<JoinRow>, role: RoleReadDTO) {
    exists i :: 0 <= i < |rows| && rows[i].id == role.roleId && rows[i].name == role.name && rows[i].description == role.description
  }

  predicate HasRole(roles: seq<RoleReadDTO>, id: Id) {
    exists i :: 0 <= i < |roles| && roles[i].roleId == id
  }

  lemma FirstRowStays(rows: seq<JoinRow>, n: nat, role: RoleReadDTO, leq: (string, string) -> bool)
    requires n < |rows| && FirstRowOf(rows[..n], role)
    requires forall i, j :: 0 <= i < j < |rows| ==> leq(rows[i].name, rows[j].name)
    ensures FirstRowOf(rows[..n + 1], role) && leq(role.name, rows[n].name)
  {
    var i :| 0 <= i < n && rows[..n][i].id == role.roleId && rows[..n][i].name == role.name && rows[..n][i].description == role.description;
    assert rows[..n + 1][i] == rows[i];
  }

  lemma {:induction false} NoNames(rows: seq<JoinRow>, id: Id)
    requires forall i :: 0 <= i < |rows| ==> rows[i].id != id
    ensures NamesFor(rows, id) == []
  {
    if rows != [] {
      NoNames(rows[..|rows| - 1], id);
    }
  }

  /** The two dictionaries being filled, and the order their keys went in. */
  datatype Groups = Groups(order: seq<Id>, roles: map<Id, RoleReadDTO>, permissions: map<Id, seq<string>>)

  function WithRow(g: Groups, row: JoinRow): Groups
    requires g.roles.Keys == g.permissions.Keys
  {
    var begun := if row.id in g.roles then g
                   else Groups(g.order + [row.id], g.roles[row.id := RoleReadDTO(row.id, row.name, row.description, [])],
                               g.permissions[row.id := []]);
    if row.permissionName.None? then begun
    else begun.(permissions := begun.permissions[row.id := begun.permissions[row.id] + [row.permissionName.value]])
  }

  ghost predicate GroupOk(rows: seq<JoinRow>, g: Groups, id: Id)
    requires id in g.roles && g.roles.Keys == g.permissions.Keys
  {
    g.roles[id].roleId == id && id in g.order && FirstRowOf(rows, g.roles[id]) && g.permissions[id] == NamesFor(rows, id)
  }

  ghost predicate InOrder(g: Groups, leq: (string, string) -> bool, i: int, j: int)
    requires 0 <= i < j < |g.order|
  {
    g.order[i] in g.roles && g.order[j] in g.roles && g.order[i] != g.order[j]
    && leq(g.roles[g.order[i]].name, g.roles[g.order[j]].name)
  }

  ghost predicate GroupsOf(rows: seq<JoinRow>, g: Groups, leq: (string, string) -> bool) {
    && g.roles.Keys == g.permissions.Keys
    && (forall i :: 0 <= i < |g.order| ==> g.order[i] in g.roles)
    && (forall id {:trigger GroupOk(rows, g, id)} :: id in g.roles ==> GroupOk(rows, g, id))
    && (forall i, j {:trigger InOrder(g, leq, i, j)} :: 0 <= i < j < |g.order| ==> InOrder(g, leq, i, j))
    && (forall m :: 0 <= m < |rows| ==> rows[m].id in g.roles)
  }

  lemma GroupOfNextRow(rows: seq<JoinRow>, n: nat, g: Groups, leq: (string, string) -> bool, id: Id)
    requires n < |rows| && forall i, j :: 0 <= i < j < |rows| ==> leq(rows[i].name, rows[j].name)
    requires GroupsOf(rows[..n], g, leq) && id in WithRow(g, rows[n]).roles
    ensures GroupOk(rows[..n + 1], WithRow(g, rows[n]), id)
    ensures id in g.roles ==> WithRow(g, rows[n]).roles[id] == g.roles[id] && leq(g.roles[id].name, rows[n].name)
  {
    assert rows[..n + 1][..n] == rows[..n];
    if id in g.roles {
      assert GroupOk(rows[..n], g, id);
      FirstRowStays(rows, n, g.roles[id], leq);
    } else {
      NoNames(rows[..n], id);
      assert rows[..n + 1][n] == rows[n];
    }
  }

  lemma OrderGrows(rows: seq<JoinRow>, n: nat, g: Groups, leq: (string, string) -> bool, i: nat, j: nat)
    requires n < |rows| && forall i, j :: 0 <= i < j < |rows| ==> leq(rows[i].name, rows[j].name)
    requires GroupsOf(rows[..n], g, leq) && i < j < |WithRow(g, rows[n]).order|
    ensures InOrder(WithRow(g, rows[n]), leq, i, j)
  {
    var first := g.order[i];
    assert first in g.roles;
    GroupOfNextRow(rows, n, g, leq, first);
    if j < |g.order| {
      assert InOrder(g, leq, i, j);
      GroupOfNextRow(rows, n, g, leq, g.order[j]);
    }
  }

  lemma EveryRowIsGrouped(rows: seq<JoinRow>, n: nat, g: Groups, leq: (string, string) -> bool, m: nat)
    requires n < |rows| && GroupsOf(rows[..n], g, leq) && m <= n
    ensures rows[m].id in WithRow(g, rows[n]).roles
  {
    assert m < n ==> rows[..n][m].id in g.roles;
  }

  lemma {:induction false} GroupsGrow(rows: seq<JoinRow>, n: nat, g: Groups, g': Groups, leq: (string, string) -> bool)
    requires n < |rows| && forall i, j :: 0 <= i < j < |rows| ==> leq(rows[i].name, rows[j].name)
    requires GroupsOf(rows[..n], g, leq) && g' == WithRow(g, rows[n])
    ensures GroupsOf(rows[..n + 1], g', leq)
  {
    var seen := rows[..n + 1];
    assert forall i :: 0 <= i < |g'.order| ==> g'.order[i] in g'.roles;
    forall id | id in g'.roles ensures GroupOk(seen, g', id) {
      GroupOfNextRow(rows, n, g, leq, id);
    }
    forall i, j | 0 <= i < j < |g'.order| ensures InOrder(g', leq, i, j) {
      OrderGrows(rows, n, g, leq, i, j);
    }
    forall m | 0 <= m < |seen| ensures seen[m].id in g'.roles {
      EveryRowIsGrouped(rows, n, g, leq, m);
    }
  }

  /** Each role of the rows once, with its names, in order. */
  ghost predicate GroupedInOrder(rows: seq<JoinRow>, r: seq<RoleReadDTO>, leq: (string, string) -> bool) {
    && (forall i :: 0 <= i < |r| ==> FirstRowOf(rows, r[i]) && r[i].permissions == NamesFor(rows, r[i].roleId))
    && (forall m :: 0 <= m < |rows| ==> HasRole(r, rows[m].id))
    && (forall i, j :: 0 <= i < j < |r| ==> r[i].roleId != r[j].roleId && leq(r[i].name, r[j].name))
  }

  /** Each role of the rows once, with its names; where the rows are in order of name, so are the roles. */
  method GroupRows(rows: seq<JoinRow>, ghost leq: (string, string) -> bool) returns (r: seq<RoleReadDTO>)
    requires forall i, j :: 0 <= i < j < |rows| ==> leq(rows[i].name, rows[j].name)
    ensures GroupedInOrder(rows, r, leq)
  {
    var order: seq<Id> := [];
    var roles: map<Id, RoleReadDTO> := map[];
    var permissions: map<Id, seq<string>> := map[];
    for n := 0 to |rows|
      invariant GroupsOf(rows[..n], Groups(order, roles, permissions), leq)
    {
      var row := rows[n];
      ghost var next := WithRow(Groups(order, roles, permissions), row);
      GroupsGrow(rows, n, Groups(order, roles, permissions), next, leq);
      if row.id !in roles {
        order := order + [row.id];
        roles := roles[row.id := RoleReadDTO(row.id, row.name, row.description, [])];
        permissions := permissions[row.id := []];
      }
      if row.permissionName.Some? {
        permissions := permissions[row.id := permissions[row.id] + [row.permissionName.value]];
      }
      assert Groups(order, roles, permissions) == next;
    }
    assert rows[..|rows|] == rows;
    r := DTOs(rows, Groups(order, roles, permissions), leq);
  }

  /** `[RoleReadDTO(..., permissions=tuple(permissions[role.role_id])) for role in roles.values()]`. */
  method DTOs(ghost rows: seq<JoinRow>, g: Groups, ghost leq: (string, string) -> bool) returns (r: seq<RoleReadDTO>)
    requires GroupsOf(rows, g, leq)
    ensures GroupedInOrder(rows, r, leq)
  {
    r := [];
    for n := 0 to |g.order|
      invariant |r| == n
      invariant forall i :: 0 <= i < n ==> r[i] == g.roles[g.order[i]].(permissions := g.permissions[g.order[i]])
    {
      r := r + [g.roles[g.order[n]].(permissions := g.permissions[g.order[n]])];
    }
    forall i | 0 <= i < |r| ensures r[i].roleId == g.order[i] && FirstRowOf(rows, r[i]) && r[i].permissions == NamesFor(rows, r[i].roleId) {
      assert GroupOk(rows, g, g.order[i]);
    }
    forall i, j | 0 <= i < j < |r| ensures r[i].roleId != r[j].roleId && leq(r[i].name, r[j].name) {
      assert InOrder(g, leq, i, j);
    }
    forall m | 0 <= m < |rows| ensures HasRole(r, rows[m].id) {
      assert GroupOk(rows, g, rows[m].id);
      var i :| 0 <= i < |g.order| && g.order[i] == rows[m].id;
      assert r[i].roleId == rows[m].id;
    }
  }

  // ----- what the grouped rows say -----

  function DTOAsView(r: RoleReadDTO): RoleView {
    RoleView(r.roleId, r.name, r.description, set n | n in r.permissions)
  }

  function DTOsAsViews(r: seq<RoleReadDTO>): (views: seq<RoleView>)
    ensures |views| == |r| && forall i :: 0 <= i < |r| ==> views[i] == DTOAsView(r[i])
  {
    if r == [] then [] else DTOsAsViews(r[..|r| - 1]) + [DTOAsView(r[|r| - 1])]
  }

  lemma {:induction false} NamesForMembers(rows: seq<JoinRow>, id: Id, name: string)
    ensures name in NamesFor(rows, id) <==> exists m :: 0 <= m < |rows| && rows[m].id == id && rows[m].permissionName == Some(name)
  {
    if rows != [] {
      var n := |rows| - 1;
      var init := rows[..n];
      NamesForMembers(init, id, name);
      if m :| 0 <= m < |rows| && rows[m].id == id && rows[m].permissionName == Some(name) {
        assert m < n ==> init[m] == rows[m];
      }
      if m :| 0 <= m < |init| && init[m].id == id && init[m].permissionName == Some(name) {
        assert rows[m] == init[m];
      }
    }
  }

  /** The names grouped under a role are those it holds. */
  lemma JoinedNamesAreHeld(t: Tables, ids: set<Id>, keys: seq<JoinKey>, rows: seq<JoinRow>, id: Id, name: string)
    requires t.Constrained() && IsJoin(t, ids, keys, rows) && id in ids && id in t.roles
    ensures name in NamesFor(rows, id) <==> Holds(t, id, name)
  {
    NamesForMembers(rows, id, name);
    if m :| 0 <= m < |rows| && rows[m].id == id && rows[m].permissionName == Some(name) {
      assert keys[m] in keys && InJoin(t, ids, keys[m]);
      assert Link(id, keys[m].permissionId.value) in t.links;
    }
    if Holds(t, id, name) {
      var p :| Link(id, p) in t.links && p in t.permissions && t.permissions[p].name == name;
      var k := JoinKey(id, Some(p));
      assert InJoin(t, ids, k);
      var m :| 0 <= m < |keys| && keys[m] == k;
      assert rows[m].permissionName == Some(name);
    }
  }

  lemma SameNameSameKey(t: Tables, a: JoinKey, b: JoinKey)
    requires t.Constrained() && a.roleId in t.roles && b.roleId in t.roles
    requires RowOf(t, a).id == RowOf(t, b).id && RowOf(t, a).permissionName == RowOf(t, b).permissionName != None
    ensures a == b
  {
    assert a.permissionId.Some? && b.permissionId.Some?;
    var p, q := a.permissionId.value, b.permissionId.value;
    assert p in t.permissions && q in t.permissions && t.permissions[p].name == t.permissions[q].name;
    assert p == q;
    assert a == JoinKey(a.roleId, Some(p)) && b == JoinKey(b.roleId, Some(q));
  }

  /** No name is grouped twice, because a role has one link to a permission and a permission one name. */
  lemma {:induction false} NoNameTwice(t: Tables, ids: set<Id>, keys: seq<JoinKey>, rows: seq<JoinRow>, id: Id, n: nat)
    requires t.Constrained() && IsJoin(t, ids, keys, rows) && n <= |rows|
    ensures Distinct(NamesFor(rows[..n], id))
  {
    if n > 0 {
      NoNameTwice(t, ids, keys, rows, id, n - 1);
      assert rows[..n][..n - 1] == rows[..n - 1];
      var before, last := NamesFor(rows[..n - 1], id), rows[n - 1];
      if last.id == id && last.permissionName.Some? {
        NamesForMembers(rows[..n - 1], id, last.permissionName.value);
        if last.permissionName.value in before {
          var m :| 0 <= m < n - 1 && rows[..n - 1][m].id == id && rows[..n - 1][m].permissionName == last.permissionName;
          assert rows[..n - 1][m] == rows[m];
          SameNameSameKey(t, keys[m], keys[n - 1]);
          assert false;
        }
      }
    }
  }

  /** Every assigned role has a row, even one without a permission. */
  lemma EveryRoleHasARow(t: Tables, ids: set<Id>, keys: seq<JoinKey>, rows: seq<JoinRow>, id: Id)
    requires IsJoin(t, ids, keys, rows) && id in ids && id in t.roles
    ensures exists m :: 0 <= m < |rows| && rows[m].id == id
  {
    var k := if l :| l in t.links && l.roleId == id then JoinKey(id, Some(l.permissionId)) else JoinKey(id, None);
    if k.permissionId.Some? {
      var l :| l in t.links && l.roleId == id && l.permissionId == k.permissionId.value;
      assert l == Link(id, l.permissionId);
    }
    assert InJoin(t, ids, k);
    var m :| 0 <= m < |keys| && keys[m] == k;
    assert rows[m].id == id;
  }

  lemma {:induction false} GroupedRowsShowTheRoles(t: Tables, ids: set<Id>, keys: seq<JoinKey>, rows: seq<JoinRow>, r: seq<RoleReadDTO>)
    requires t.Constrained() && IsJoin(t, ids, keys, rows)
    requires forall i :: 0 <= i < |r| ==> FirstRowOf(rows, r[i]) && r[i].permissions == NamesFor(rows, r[i].roleId)
    requires forall m :: 0 <= m < |rows| ==> HasRole(r, rows[m].id)
    requires forall i, j :: 0 <= i < j < |r| ==> r[i].roleId != r[j].roleId
    ensures Shows(t, ids, DTOsAsViews(r))
  {
    var views := DTOsAsViews(r);
    forall i | 0 <= i < |r| ensures r[i].roleId in ids && r[i].roleId in t.roles && views[i] == ViewOf(t, r[i].roleId) {
      DTOShowsItsRole(t, ids, keys, rows, r[i]);
    }
    forall id | id in ids && id in t.roles ensures ViewOf(t, id) in views {
      var i := DTOOfRole(t, ids, keys, rows, r, id);
      assert views[i] == ViewOf(t, id);
    }
  }

  lemma DTOOfRole(t: Tables, ids: set<Id>, keys: seq<JoinKey>, rows: seq<JoinRow>, r: seq<RoleReadDTO>, id: Id) returns (i: nat)
    requires IsJoin(t, ids, keys, rows) && id in ids && id in t.roles
    requires forall m :: 0 <= m < |rows| ==> HasRole(r, rows[m].id)
    ensures i < |r| && r[i].roleId == id
  {
    EveryRoleHasARow(t, ids, keys, rows, id);
    var m :| 0 <= m < |rows| && rows[m].id == id;
    assert HasRole(r, rows[m].id);
    i :| 0 <= i < |r| && r[i].roleId == id;
  }

  lemma DTOShowsItsRole(t: Tables, ids: set<Id>, keys: seq<JoinKey>, rows: seq<JoinRow>, r: RoleReadDTO)
    requires t.Constrained() && IsJoin(t, ids, keys, rows)
    requires FirstRowOf(rows, r) && r.permissions == NamesFor(rows, r.roleId)
    ensures r.roleId in ids && r.roleId in t.roles && DTOAsView(r) == ViewOf(t, r.roleId)
  {
    var m :| 0 <= m < |rows| && rows[m].id == r.roleId && rows[m].name == r.name && rows[m].description == r.description;
    assert keys[m] in keys && InJoin(t, ids, keys[m]) && rows[m] == RowOf(t, keys[m]);
    forall name ensures name in r.permissions <==> name in NamesOf(t, r.roleId) {
      JoinedNamesAreHeld(t, ids, keys, rows, r.roleId, name);
      assert name in NamesOf(t, r.roleId) <==> Holds(t, r.roleId, name);
    }
  }

  // ----- the two answers -----

  /** What is read of a role is its row, and the names it holds. */
  ghost predicate SaysItsRole(t: Tables, r: RoleReadDTO) {
    && r.roleId in t.roles && t.roles[r.roleId] == RoleRow(r.name, r.description)
    && forall name :: name in r.permissions <==> Holds(t, r.roleId, name)
  }

  lemma DTOSaysItsRole(t: Tables, ids: set<Id>, keys: seq<JoinKey>, rows: seq<JoinRow>, r: RoleReadDTO)
    requires t.Constrained() && IsJoin(t, ids, keys, rows)
    requires FirstRowOf(rows, r) && r.permissions == NamesFor(rows, r.roleId)
    ensures SaysItsRole(t, r)
  {
    DTOShowsItsRole(t, ids, keys, rows, r);
    forall name ensures name in r.permissions <==> Holds(t, r.roleId, name) {
      JoinedNamesAreHeld(t, ids, keys, rows, r.roleId, name);
    }
  }

  /** The user's roles, complete, each with its permissions listed once, in order. */
  ghost predicate ReadInOrder(t: Tables, userId: Id, r: seq<RoleReadDTO>, leq: (string, string) -> bool) {
    && Shows(t, AssignedRoles(t, userId), DTOsAsViews(r))
    && (forall i :: 0 <= i < |r| ==> SaysItsRole(t, r[i]))
    && (forall i :: 0 <= i < |r| ==> Distinct(r[i].permissions))
    && (forall i, j :: 0 <= i < j < |r| ==> leq(r[i].name, r[j].name))
  }

  lemma NoNameTwiceInAny(t: Tables, ids: set<Id>, keys: seq<JoinKey>, rows: seq<JoinRow>, r: seq<RoleReadDTO>)
    requires t.Constrained() && IsJoin(t, ids, keys, rows)
    requires forall i :: 0 <= i < |r| ==> r[i].permissions == NamesFor(rows, r[i].roleId)
    ensures forall i :: 0 <= i < |r| ==> Distinct(r[i].permissions)
  {
    assert rows[..|rows|] == rows;
    forall i | 0 <= i < |r| ensures Distinct(r[i].permissions) {
      NoNameTwice(t, ids, keys, rows, r[i].roleId, |rows|);
    }
  }

  /** `get_user_roles` of the reader, given the rows of its one query in any order. */
  method ReadUserRoles(t: Tables, userId: Id, ghost keys: seq<JoinKey>, rows: seq<JoinRow>, ghost leq: (string, string) -> bool)
    returns (r: seq<RoleReadDTO>)
    requires t.Constrained() && IsJoin(t, AssignedRoles(t, userId), keys, rows)
    requires forall i, j :: 0 <= i < j < |rows| ==> leq(rows[i].name, rows[j].name)
    ensures ReadInOrder(t, userId, r, leq)
  {
    r := GroupRows(rows, leq);
    GroupedRowsShowTheRoles(t, AssignedRoles(t, userId), keys, rows, r);
    NoNameTwiceInAny(t, AssignedRoles(t, userId), keys, rows, r);
    forall i | 0 <= i < |r| ensures SaysItsRole(t, r[i]) {
      DTOSaysItsRole(t, AssignedRoles(t, userId), keys, rows, r[i]);
    }
  }

  method CheckPermission(t: Tables, userId: Id, ghost keys: seq<JoinKey>, rows: seq<JoinRow>, permission: string) returns (allowed: bool)
    requires t.Constrained() && IsJoin(t, AssignedRoles(t, userId), keys, rows)
    ensures allowed <==> Grants(t, userId, permission)
  {
    var roles := ReadUserRoles(t, userId, keys, rows, (a, b) => true);
    allowed := exists i :: 0 <= i < |roles| && permission in roles[i].permissions;
    JoinChecks(t, userId, roles, permission);
  }

  lemma {:induction false} JoinChecks(t: Tables, userId: Id, joined: seq<RoleReadDTO>, permission: string)
    requires Shows(t, AssignedRoles(t, userId), DTOsAsViews(joined))
    ensures (exists i :: 0 <= i < |joined| && permission in joined[i].permissions) <==> Grants(t, userId, permission)
  {
    var views := DTOsAsViews(joined);
    ShownPermissionsAreGranted(t, userId, views, permission);
    assert forall i :: 0 <= i < |joined| ==> (permission in joined[i].permissions <==> permission in views[i].permissions);
  }

  lemma {:induction false} LoopChecks(t: Tables, userId: Id, looped: seq<Role>, permission: string)
    requires Shows(t, AssignedRoles(t, userId), RolesAsViews(looped))
    ensures (exists i :: 0 <= i < |looped| && looped[i].HasPermission(permission)) <==> Grants(t, userId, permission)
  {
    var views := RolesAsViews(looped);
    ShownPermissionsAreGranted(t, userId, views, permission);
    assert forall i :: 0 <= i < |looped| ==> (looped[i].HasPermission(permission) <==> permission in views[i].permissions);
  }

  /**
   The join and the loop agree, whatever the tables hold and in whatever order rows come: grouping
   the join's rows and loading role after role give the same roles with the same permissions, and
   so the same answer to every permission check.
   */
  lemma {:induction false} JoinAgreesWithLoop(t: Tables, userId: Id, keys: seq<JoinKey>, rows: seq<JoinRow>, joined: seq<RoleReadDTO>,
                           leq: (string, string) -> bool, roleIds: seq<Id>, looped: seq<Role>, permission: string)
    requires t.Constrained() && IsJoin(t, AssignedRoles(t, userId), keys, rows) && GroupedInOrder(rows, joined, leq)
    requires forall id :: id in roleIds <==> Assignment(userId, id) in t.userRoles
    requires ShowsSome(t, userId, roleIds, looped)
    ensures multiset(DTOsAsViews(joined)) == multiset(RolesAsViews(looped))
    ensures (exists i :: 0 <= i < |joined| && permission in joined[i].permissions)
       <==> (exists i :: 0 <= i < |looped| && looped[i].HasPermission(permission))
  {
    GroupedRowsShowTheRoles(t, AssignedRoles(t, userId), keys, rows, joined);
    ShowsAll(t, userId, roleIds, looped);
    ReadersAgree(t, AssignedRoles(t, userId), DTOsAsViews(joined), RolesAsViews(looped));
    JoinChecks(t, userId, joined, permission);
    LoopChecks(t, userId, looped, permission);
  }
}
