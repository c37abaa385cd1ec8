/** Roles, permissions and assignments: the tables, and the repositories over them. */
module Rbac {
  import opened Basics

  type Id = int

  datatype Permission = Permission(name: string, description: Option<string>)

  datatype Role = Role(roleId: Id, name: string, description: Option<string>, permissions: seq<Permission>)
  {
    predicate HasPermission(permission: string) {
      Mentions(permissions, permission)
    }

    function AddPermission(p: Permission): Role {
      if HasPermission(p.name) then this else this.(permissions := permissions + [p])
    }

    function RemovePermission(permission: string): Role {
      this.(permissions := Except(permissions, permission))
    }
  }

  predicate Mentions(permissions: seq<Permission>, name: string) {
    exists i :: 0 <= i < |permissions| && permissions[i].name == name
  }

  function Except(permissions: seq<Permission>, name: string): seq<Permission> {
    if permissions == [] then []
    else
      var last := permissions[|permissions| - 1];
      Except(permissions[..|permissions| - 1], name) + if last.name == name then [] else [last]
  }

  lemma {:induction false} ExceptMentions(permissions: seq<Permission>, name: string, other: string)
    ensures Mentions(Except(permissions, name), other) <==> Mentions(permissions, other) && other != name
  {
    if permissions != [] {
      var n := |permissions| - 1;
      var init, last := permissions[..n], permissions[n];
      ExceptMentions(init, name, other);
      MentionsOneMore(init, last, other);
      MentionsOneMore(Except(init, name), last, other);
      assert permissions == init + [last];
      assert Except(init, name) + [] == Except(init, name);
    }
  }

  lemma MentionsOneMore(permissions: seq<Permission>, p: Permission, name: string)
    ensures Mentions(permissions + [p], name) <==> Mentions(permissions, name) || p.name == name
  {
    var more := permissions + [p];
    if Mentions(permissions, name) {
      var i :| 0 <= i < |permissions| && permissions[i].name == name;
      assert more[i].name == name;
    }
    assert more[|permissions|] == p;
  }

  // ----- the tables -----

  datatype PermissionRow = PermissionRow(name: string, description: Option<string>)

  datatype RoleRow = RoleRow(name: string, description: Option<string>)

  datatype Link = Link(roleId: Id, permissionId: Id)

  datatype Assignment = Assignment(userId: Id, roleId: Id)

  datatype Assigned = Assigned(assignedAt: Time, assignedBy: Option<Id>)

  datatype Tables = Tables(
    permissions: map<Id, PermissionRow>,
    roles: map<Id, RoleRow>,
    links: set<Link>,
    userRoles: map<Assignment, Assigned>,
    users: set<Id>)
  {
    /** Unique names, and no link or assignment to a row that is not there. */
    ghost predicate Constrained() {
      && UniqueNames(permissions)
      && (forall i, j :: i in roles && j in roles && roles[i].name == roles[j].name ==> i == j)
      && (forall l :: l in links ==> l.roleId in roles && l.permissionId in permissions)
      && (forall a :: a in userRoles ==> a.userId in users && a.roleId in roles)
    }
  }

  ghost predicate UniqueNames(permissions: map<Id, PermissionRow>) {
    forall i, j :: i in permissions && j in permissions && permissions[i].name == permissions[j].name ==> i == j
  }

  predicate NameTaken(permissions: map<Id, PermissionRow>, name: string) {
    exists id :: id in permissions && permissions[id].name == name
  }

  predicate RoleNameTaken(roles: map<Id, RoleRow>, name: string) {
    exists id :: id in roles && roles[id].name == name
  }

  /** The role carries a permission of this name. */
  ghost predicate Holds(t: Tables, roleId: Id, name: string) {
    exists id :: Link(roleId, id) in t.links && id in t.permissions && t.permissions[id].name == name
  }

  /** The user is assigned this role, and it carries a permission of this name. */
  ghost predicate GrantsVia(t: Tables, userId: Id, roleId: Id, name: string) {
    Assignment(userId, roleId) in t.userRoles && roleId in t.roles && Holds(t, roleId, name)
  }

  ghost predicate Grants(t: Tables, userId: Id, name: string) {
    exists roleId :: GrantsVia(t, userId, roleId, name)
  }

  // ----- storing a role: an exact sync of its links -----

  function WithPermission(permissions: map<Id, PermissionRow>, p: Permission, newId: Id): map<Id, PermissionRow> {
    if NameTaken(permissions, p.name) then permissions else permissions[newId := PermissionRow(p.name, p.description)]
  }

  function WithPermissions(permissions: map<Id, PermissionRow>, ps: seq<Permission>, newIds: seq<Id>): map<Id, PermissionRow>
    requires |newIds| >= |ps|
  {
    if ps == [] then permissions
    else
      var n := |ps| - 1;
      WithPermission(WithPermissions(permissions, ps[..n], newIds), ps[n], newIds[n])
  }

  /** The rows that carry a name the role mentions. */
  function Wanted(permissions: map<Id, PermissionRow>, ps: seq<Permission>): set<Id> {
    set id | id in permissions && Mentions(ps, permissions[id].name)
  }

  function LinksTo(roleId: Id, ids: set<Id>): set<Link> {
    set id | id in ids :: Link(roleId, id)
  }

  function LinkedTo(links: set<Link>, roleId: Id): set<Id> {
    set l | l in links && l.roleId == roleId :: l.permissionId
  }

  function LinksOfOthers(links: set<Link>, roleId: Id): set<Link> {
    set l | l in links && l.roleId != roleId
  }

  /** The tables after a role is stored: its links are those of the names it mentions, the others' stay. */
  function Synced(t: Tables, role: Role, newIds: seq<Id>): Tables
    requires |newIds| >= |role.permissions|
  {
    var permissions := WithPermissions(t.permissions, role.permissions, newIds);
    t.(permissions := permissions,
       roles := t.roles[role.roleId := RoleRow(role.name, role.description)],
       links := LinksOfOthers(t.links, role.roleId) + LinksTo(role.roleId, Wanted(permissions, role.permissions)))
  }

  /** Removing what is no longer wanted and adding what is new makes the links exactly the wanted ones. */
  lemma SyncingLinks(links: set<Link>, roleId: Id, current: set<Id>, desired: set<Id>)
    requires current == LinkedTo(links, roleId)
    ensures links - LinksTo(roleId, current - desired) + LinksTo(roleId, desired - current)
         == LinksOfOthers(links, roleId) + LinksTo(roleId, desired)
  {
    forall l | l in links && l.roleId == roleId
      ensures l.permissionId in current && (l in LinksTo(roleId, current - desired) <==> l.permissionId !in desired)
    {
      assert l == Link(roleId, l.permissionId);
    }
    forall id | id in desired && id in current ensures Link(roleId, id) in links {
      var l :| l in links && l.roleId == roleId && l.permissionId == id;
      assert l == Link(roleId, id);
    }
  }

  /** A permission row is added exactly for a name that had none, and the name then has one. */
  lemma OnePermissionMore(permissions: map<Id, PermissionRow>, p: Permission, newId: Id, name: string)
    requires UniqueNames(permissions) && newId !in permissions
    ensures var after := WithPermission(permissions, p, newId);
            && UniqueNames(after)
            && (NameTaken(after, name) <==> NameTaken(permissions, name) || name == p.name)
            && after.Keys <= permissions.Keys + {newId}
            && (forall id :: id in permissions ==> id in after && after[id] == permissions[id])
            && (newId in after <==> !NameTaken(permissions, p.name))
            && (newId in after ==> after[newId] == PermissionRow(p.name, p.description))
  {
    var after := WithPermission(permissions, p, newId);
    if NameTaken(permissions, name) {
      var id :| id in permissions && permissions[id].name == name;
      assert after[id].name == name;
    }
    if !NameTaken(permissions, p.name) {
      assert after[newId].name == p.name;
    }
  }

  lemma {:induction false} PermissionsMore(permissions: map<Id, PermissionRow>, ps: seq<Permission>, newIds: seq<Id>, name: string)
    requires UniqueNames(permissions) && |newIds| >= |ps| && Distinct(newIds)
    requires forall i :: 0 <= i < |newIds| ==> newIds[i] !in permissions
    ensures var after := WithPermissions(permissions, ps, newIds);
            && UniqueNames(after)
            && (NameTaken(after, name) <==> NameTaken(permissions, name) || Mentions(ps, name))
            && (forall id :: id in after ==> id in permissions || id in newIds[..|ps|])
            && (forall id :: id in permissions ==> id in after && after[id] == permissions[id])
  {
    if ps != [] {
      var n := |ps| - 1;
      PermissionsMore(permissions, ps[..n], newIds, name);
      var before := WithPermissions(permissions, ps[..n], newIds);
      assert newIds[n] !in newIds[..n];
      assert newIds[..n + 1] == newIds[..n] + [newIds[n]];
      OnePermissionMore(before, ps[n], newIds[n], name);
      MentionsOneMore(ps[..n], ps[n], name);
      assert ps == ps[..n] + [ps[n]];
    }
  }

  /** After a role is stored, it holds exactly the names it mentions, and every other role what it held. */
  lemma SyncIsExact(t: Tables, role: Role, newIds: seq<Id>, roleId: Id, name: string)
    requires t.Constrained() && |newIds| >= |role.permissions| && Distinct(newIds)
    requires forall i :: 0 <= i < |newIds| ==> newIds[i] !in t.permissions
    ensures Holds(Synced(t, role, newIds), roleId, name)
       <==> if roleId == role.roleId then role.HasPermission(name) else Holds(t, roleId, name)
  {
    var t' := Synced(t, role, newIds);
    PermissionsMore(t.permissions, role.permissions, newIds, name);
    if roleId == role.roleId {
      if role.HasPermission(name) {
        assert NameTaken(t'.permissions, name);
        var id :| id in t'.permissions && t'.permissions[id].name == name;
        assert Link(roleId, id) in t'.links;
      }
    } else if Holds(t, roleId, name) {
      var id :| Link(roleId, id) in t.links && id in t.permissions && t.permissions[id].name == name;
      assert Link(roleId, id) in t'.links && t'.permissions[id] == t.permissions[id];
    }
  }

  /** Storing a role breaks no constraint, unless another role has its name. */
  lemma SyncKeepsConstraints(t: Tables, role: Role, newIds: seq<Id>)
    requires t.Constrained() && |newIds| >= |role.permissions| && Distinct(newIds)
    requires forall i :: 0 <= i < |newIds| ==> newIds[i] !in t.permissions
    requires forall id :: id in t.roles && id != role.roleId ==> t.roles[id].name != role.name
    ensures Synced(t, role, newIds).Constrained()
  {
    PermissionsMore(t.permissions, role.permissions, newIds, "");
  }

  // ----- reading -----

  /** What a caller learns of a role. */
  datatype RoleView = RoleView(id: Id, name: string, description: Option<string>, permissions: set<string>)

  function NamesOf(t: Tables, roleId: Id): set<string> {
    set id | id in t.permissions && Link(roleId, id) in t.links :: t.permissions[id].name
  }

  function ViewOf(t: Tables, roleId: Id): RoleView
    requires roleId in t.roles
  {
    RoleView(roleId, t.roles[roleId].name, t.roles[roleId].description, NamesOf(t, roleId))
  }

  /** A view says what the role's row says, and lists exactly the names it holds. */
  lemma ViewSaysItsRole(t: Tables, roleId: Id, name: string)
    requires roleId in t.roles
    ensures ViewOf(t, roleId).id == roleId && RoleRow(ViewOf(t, roleId).name, ViewOf(t, roleId).description) == t.roles[roleId]
    ensures name in ViewOf(t, roleId).permissions <==> Holds(t, roleId, name)
  {
  }

  function AssignedRoles(t: Tables, userId: Id): set<Id> {
    set id | id in t.roles && Assignment(userId, id) in t.userRoles
  }

  /** The given roles, each once. */
  ghost predicate Shows(t: Tables, ids: set<Id>, views: seq<RoleView>) {
    && (forall i :: 0 <= i < |views| ==> views[i].id in ids && views[i].id in t.roles && views[i] == ViewOf(t, views[i].id))
    && (forall id :: id in ids && id in t.roles ==> ViewOf(t, id) in views)
    && (forall i, j :: 0 <= i < j < |views| ==> views[i].id != views[j].id)
  }

  lemma SameElements<T>(a: seq<T>, b: seq<T>)
    requires Distinct(a) && Distinct(b) && forall x :: x in a <==> x in b
    ensures multiset(a) == multiset(b)
  {
    forall x ensures multiset(a)[x] == multiset(b)[x] {
      CountInDistinct(a, x);
      CountInDistinct(b, x);
    }
  }

  lemma {:induction false} CountInDistinct<T>(a: seq<T>, x: T)
    requires Distinct(a)
    ensures multiset(a)[x] == if x in a then 1 else 0
  {
    if a != [] {
      var init, last := a[..|a| - 1], a[|a| - 1];
      CountInDistinct(init, x);
      assert a == init + [last];
      assert last !in init;
    }
  }

  /** Two ways of reading the same roles give the same answer up to order. */
  lemma ReadersAgree(t: Tables, ids: set<Id>, a: seq<RoleView>, b: seq<RoleView>)
    requires Shows(t, ids, a) && Shows(t, ids, b)
    ensures multiset(a) == multiset(b)
  {
    forall v ensures v in a <==> v in b {
      if v in a {
        var i :| 0 <= i < |a| && a[i] == v;
        assert ViewOf(t, v.id) in b;
      }
      if v in b {
        var i :| 0 <= i < |b| && b[i] == v;
        assert ViewOf(t, v.id) in a;
      }
    }
    SameElements(a, b);
  }

  /** A user holds a permission exactly when a role shown for the user lists it. */
  lemma ShownPermissionsAreGranted(t: Tables, userId: Id, views: seq<RoleView>, name: string)
    requires Shows(t, AssignedRoles(t, userId), views)
    ensures Grants(t, userId, name) <==> exists i :: 0 <= i < |views| && name in views[i].permissions
  {
    if Grants(t, userId, name) {
      var roleId :| GrantsVia(t, userId, roleId, name);
      var i :| 0 <= i < |views| && views[i] == ViewOf(t, roleId);
      assert name in views[i].permissions;
    }
    if i :| 0 <= i < |views| && name in views[i].permissions {
      assert GrantsVia(t, userId, views[i].id, name);
    }
  }
}
