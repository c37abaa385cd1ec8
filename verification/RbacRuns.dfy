/** What each operation of the role service does to the tables, and what any run of them keeps. */
module RbacRuns {
  import opened Basics
  import opened Rbac

  const DEFAULT_ROLE_ADMIN := "admin"

  datatype Outcome = Done | RoleAlreadyExists | RoleNotFound | UserNotFound | PermissionDenied | IntegrityError

  datatype Action =
    | AddUser(userId: Id)
    | CreateRole(roleId: Id, name: string, description: Option<string>)
    | DeleteRole(roleId: Id)
    | AssignRole(userId: Id, roleId: Id, assignedAt: Time, assignedBy: Option<Id>)
    | RevokeRole(userId: Id, roleId: Id)
    | AddPermission(roleId: Id, name: string, newId: Id)
    | RemovePermission(roleId: Id, name: string)

  /** Whether the operation goes through, and the error when it does not. */
  function OutcomeOf(t: Tables, a: Action): Outcome {
    match a
    case AddUser(_) => Done
    case CreateRole(_, name, _) => if RoleNameTaken(t.roles, name) then RoleAlreadyExists else Done
    case DeleteRole(r) =>
      if r !in t.roles then RoleNotFound
      else if t.roles[r].name == DEFAULT_ROLE_ADMIN then PermissionDenied
      else Done
    case AssignRole(u, r, _, assigner) =>
      if u !in t.users then UserNotFound
      else if r !in t.roles then RoleNotFound
      else if Assignment(u, r) !in t.userRoles && assigner.Some? && assigner.value !in t.users then IntegrityError
      else Done
    case RevokeRole(u, r) =>
      if u !in t.users then UserNotFound
      else if r !in t.roles then RoleNotFound
      else if t.roles[r].name == DEFAULT_ROLE_ADMIN then PermissionDenied
      else Done
    case AddPermission(r, _, _) => if r !in t.roles then RoleNotFound else Done
    case RemovePermission(r, _) => if r !in t.roles then RoleNotFound else Done
  }

  function Named(permissions: map<Id, PermissionRow>, name: string): set<Id> {
    set id | id in permissions && permissions[id].name == name
  }

  function WithoutRole(t: Tables, r: Id): Tables {
    t.(roles := t.roles - {r}, links := LinksOfOthers(t.links, r),
       userRoles := map a | a in t.userRoles && a.roleId != r :: t.userRoles[a])
  }

  function WithAssignment(t: Tables, a: Assignment, row: Assigned): Tables {
    if a in t.userRoles then t else t.(userRoles := t.userRoles[a := row])
  }

  /** The role linked to the permission of this name, which is created when there is none. */
  function WithGrant(t: Tables, r: Id, name: string, newId: Id): Tables {
    var permissions := WithPermission(t.permissions, Permission(name, None), newId);
    t.(permissions := permissions, links := t.links + LinksTo(r, Named(permissions, name)))
  }

  function WithoutGrant(t: Tables, r: Id, name: string): Tables {
    t.(links := t.links - LinksTo(r, Named(t.permissions, name)))
  }

  function Step(t: Tables, a: Action): Tables {
    if OutcomeOf(t, a) != Done then t
    else
      match a
      case AddUser(u) => t.(users := t.users + {u})
      case CreateRole(r, name, description) => t.(roles := t.roles[r := RoleRow(name, description)])
      case DeleteRole(r) => WithoutRole(t, r)
      case AssignRole(u, r, at, assigner) => WithAssignment(t, Assignment(u, r), Assigned(at, assigner))
      case RevokeRole(u, r) => t.(userRoles := t.userRoles - {Assignment(u, r)})
      case AddPermission(r, name, newId) => WithGrant(t, r, name, newId)
      case RemovePermission(r, name) => WithoutGrant(t, r, name)
  }

  /** Random identifiers do not repeat. */
  predicate Enabled(t: Tables, a: Action) {
    match a
    case CreateRole(r, _, _) => r !in t.roles
    case AddPermission(_, _, newId) => newId !in t.permissions
    case _ => true
  }

  function Run(t: Tables, acts: seq<Action>): Tables {
    if acts == [] then t else Step(Run(t, acts[..|acts| - 1]), acts[|acts| - 1])
  }

  predicate Legal(t: Tables, acts: seq<Action>) {
    acts == [] || (Legal(t, acts[..|acts| - 1]) && Enabled(Run(t, acts[..|acts| - 1]), acts[|acts| - 1]))
  }

  // ----- loading a role, changing it and storing it -----

  /** A role as loaded: its row, and the names it holds. */
  ghost predicate LoadedRole(t: Tables, role: Role) {
    && role.roleId in t.roles && t.roles[role.roleId] == RoleRow(role.name, role.description)
    && forall name :: role.HasPermission(name) <==> Holds(t, role.roleId, name)
  }

  lemma {:induction false} NothingToAdd(permissions: map<Id, PermissionRow>, ps: seq<Permission>, newIds: seq<Id>)
    requires |newIds| >= |ps| && forall i :: 0 <= i < |ps| ==> NameTaken(permissions, ps[i].name)
    ensures WithPermissions(permissions, ps, newIds) == permissions
  {
    if ps != [] {
      NothingToAdd(permissions, ps[..|ps| - 1], newIds);
    }
  }

  /** A link is there exactly when the role holds the name it leads to. */
  lemma LinkIsAName(t: Tables, r: Id, id: Id)
    requires t.Constrained() && id in t.permissions
    ensures Holds(t, r, t.permissions[id].name) <==> Link(r, id) in t.links
  {
  }

  lemma LoadedNamesAreTaken(t: Tables, role: Role)
    requires LoadedRole(t, role)
    ensures forall i :: 0 <= i < |role.permissions| ==> NameTaken(t.permissions, role.permissions[i].name)
  {
    forall i | 0 <= i < |role.permissions| ensures NameTaken(t.permissions, role.permissions[i].name) {
      assert role.HasPermission(role.permissions[i].name);
      var id :| Link(role.roleId, id) in t.links && id in t.permissions && t.permissions[id].name == role.permissions[i].name;
      assert t.permissions[id].name == role.permissions[i].name;
    }
  }

  /** A sync whose names all have rows, stated on links alone. */
  lemma SyncOfKnownNames(t: Tables, role: Role, newIds: seq<Id>, links: set<Link>)
    requires |newIds| == |role.permissions|
    requires forall i :: 0 <= i < |role.permissions| ==> NameTaken(t.permissions, role.permissions[i].name)
    requires role.roleId in t.roles && t.roles[role.roleId] == RoleRow(role.name, role.description)
    requires forall l :: l in links ==> l.permissionId in t.permissions || l.roleId != role.roleId
    requires LinksOfOthers(links, role.roleId) == LinksOfOthers(t.links, role.roleId)
    requires forall id :: id in t.permissions ==>
      (Link(role.roleId, id) in links <==> Mentions(role.permissions, t.permissions[id].name))
    ensures Synced(t, role, newIds) == t.(links := links)
  {
    NothingToAdd(t.permissions, role.permissions, newIds);
    forall l ensures l in Synced(t, role, newIds).links <==> l in links {
      if l.roleId == role.roleId {
        assert l == Link(role.roleId, l.permissionId);
      }
    }
    assert t.roles[role.roleId := RoleRow(role.name, role.description)] == t.roles;
  }

  /** Adding a permission to a loaded role and storing it adds one link. */
  lemma {:induction false} AddingStoresOneLink(t: Tables, role: Role, p: Permission, newId: Id, newIds: seq<Id>)
    requires t.Constrained() && LoadedRole(t, role) && newId !in t.permissions
    requires |newIds| == |role.AddPermission(p).permissions|
    ensures Synced(t.(permissions := WithPermission(t.permissions, p, newId)), role.AddPermission(p), newIds)
         == t.(permissions := WithPermission(t.permissions, p, newId),
               links := t.links + LinksTo(role.roleId, Named(WithPermission(t.permissions, p, newId), p.name)))
  {
    var r := role.roleId;
    var permissions := WithPermission(t.permissions, p, newId);
    var t1 := t.(permissions := permissions);
    var links := t.links + LinksTo(r, Named(permissions, p.name));
    var changed := role.AddPermission(p);
    OnePermissionMore(t.permissions, p, newId, p.name);
    LoadedNamesAreTaken(t, role);
    forall i | 0 <= i < |changed.permissions| ensures NameTaken(permissions, changed.permissions[i].name) {
      OnePermissionMore(t.permissions, p, newId, changed.permissions[i].name);
    }
    forall id | id in permissions
      ensures Link(r, id) in links <==> Mentions(changed.permissions, permissions[id].name)
    {
      var name := permissions[id].name;
      if !role.HasPermission(p.name) {
        MentionsOneMore(role.permissions, p, name);
      }
      assert Mentions(changed.permissions, name) <==> role.HasPermission(name) || name == p.name;
      if id in t.permissions {
        LinkIsAName(t, r, id);
      } else {
        assert name == p.name;
      }
    }
    SyncOfKnownNames(t1, changed, newIds, links);
  }

  /** Removing a permission from a loaded role and storing it removes its link, if there is one. */
  lemma RemovingStoresOneLinkLess(t: Tables, role: Role, name: string, newIds: seq<Id>)
    requires t.Constrained() && LoadedRole(t, role)
    requires |newIds| == |role.RemovePermission(name).permissions|
    ensures Synced(t, role.RemovePermission(name), newIds) == WithoutGrant(t, role.roleId, name)
  {
    var r := role.roleId;
    var changed := role.RemovePermission(name);
    var links := WithoutGrant(t, r, name).links;
    LoadedNamesAreTaken(t, role);
    forall i | 0 <= i < |changed.permissions| ensures NameTaken(t.permissions, changed.permissions[i].name) {
      var kept := changed.permissions[i].name;
      assert Mentions(changed.permissions, kept);
      ExceptMentions(role.permissions, name, kept);
      var j :| 0 <= j < |role.permissions| && role.permissions[j].name == kept;
      assert NameTaken(t.permissions, role.permissions[j].name);
    }
    forall id | id in t.permissions
      ensures Link(r, id) in links <==> Mentions(changed.permissions, t.permissions[id].name)
    {
      ExceptMentions(role.permissions, name, t.permissions[id].name);
      LinkIsAName(t, r, id);
      assert Mentions(role.permissions, t.permissions[id].name) <==> role.HasPermission(t.permissions[id].name);
    }
    SyncOfKnownNames(t, changed, newIds, links);
  }

  // ----- what every run keeps -----

  lemma StepKeepsConstraints(t: Tables, a: Action)
    requires t.Constrained() && Enabled(t, a)
    ensures Step(t, a).Constrained()
  {
    match a
    case AddPermission(r, name, newId) => OnePermissionMore(t.permissions, Permission(name, None), newId, name);
    case _ =>
  }

  /** Names stay unique and nothing dangles, whatever is created, linked, assigned or deleted. */
  lemma {:induction false} RunKeepsConstraints(t: Tables, acts: seq<Action>)
    requires t.Constrained() && Legal(t, acts)
    ensures Run(t, acts).Constrained()
  {
    if acts != [] {
      RunKeepsConstraints(t, acts[..|acts| - 1]);
      StepKeepsConstraints(Run(t, acts[..|acts| - 1]), acts[|acts| - 1]);
    }
  }

  /** The admin role is never deleted or renamed, and nobody it was assigned to loses it. */
  lemma {:induction false} AdminPersists(t: Tables, acts: seq<Action>, admin: Id, userId: Id)
    requires t.Constrained() && Legal(t, acts)
    requires admin in t.roles && t.roles[admin].name == DEFAULT_ROLE_ADMIN
    ensures var t' := Run(t, acts);
            && admin in t'.roles && t'.roles[admin] == t.roles[admin]
            && (Assignment(userId, admin) in t.userRoles ==>
                  Assignment(userId, admin) in t'.userRoles && t'.userRoles[Assignment(userId, admin)] == t.userRoles[Assignment(userId, admin)])
  {
    if acts != [] {
      AdminPersists(t, acts[..|acts| - 1], admin, userId);
    }
  }

  /** What an operation that goes through does to the authorization of one user by one role, told without tables. */
  ghost predicate ViaAfter(t: Tables, a: Action, u: Id, r: Id, name: string) {
    match a
    case AddUser(_) => GrantsVia(t, u, r, name)
    case CreateRole(_, _, _) => GrantsVia(t, u, r, name)
    case DeleteRole(gone) => GrantsVia(t, u, r, name) && r != gone
    case AssignRole(to, role, _, _) => GrantsVia(t, u, r, name) || (u == to && r == role && Holds(t, r, name))
    case RevokeRole(loser, role) => GrantsVia(t, u, r, name) && !(u == loser && r == role)
    case AddPermission(role, added, _) => GrantsVia(t, u, r, name) || (r == role && name == added && Assignment(u, r) in t.userRoles)
    case RemovePermission(role, removed) => GrantsVia(t, u, r, name) && !(r == role && name == removed)
  }

  lemma GrantingHolds(t: Tables, r: Id, added: string, newId: Id, role: Id, name: string)
    requires t.Constrained() && newId !in t.permissions
    ensures Holds(WithGrant(t, r, added, newId), role, name) <==> Holds(t, role, name) || (role == r && name == added)
  {
    var p := Permission(added, None);
    var t' := WithGrant(t, r, added, newId);
    OnePermissionMore(t.permissions, p, newId, added);
    if Holds(t, role, name) {
      var id :| Link(role, id) in t.links && id in t.permissions && t.permissions[id].name == name;
      assert Link(role, id) in t'.links && t'.permissions[id].name == name;
    }
    if role == r && name == added {
      var id :| id in t'.permissions && t'.permissions[id].name == added;
      assert Link(r, id) in t'.links;
    }
  }

  lemma WithdrawingHolds(t: Tables, r: Id, removed: string, role: Id, name: string)
    requires t.Constrained()
    ensures Holds(WithoutGrant(t, r, removed), role, name) <==> Holds(t, role, name) && !(role == r && name == removed)
  {
    var t' := WithoutGrant(t, r, removed);
    if Holds(t, role, name) && !(role == r && name == removed) {
      var id :| Link(role, id) in t.links && id in t.permissions && t.permissions[id].name == name;
      assert Link(role, id) in t'.links;
    }
  }

  predicate IsAdmin(t: Tables, r: Id) {
    r in t.roles && t.roles[r].name == "admin"
  }

  /** When an operation goes through, and who learns what otherwise: one error for each reason, and none without one. */
  lemma EachOutcomeHasItsReason(t: Tables, a: Action)
    ensures var o := OutcomeOf(t, a);
            && (o == RoleAlreadyExists <==> a.CreateRole? && exists id :: id in t.roles && t.roles[id].name == a.name)
            && (o == UserNotFound <==> (a.AssignRole? || a.RevokeRole?) && a.userId !in t.users)
            && (o == PermissionDenied <==> (a.DeleteRole? || (a.RevokeRole? && a.userId in t.users)) && IsAdmin(t, a.roleId))
            && (o == RoleNotFound <==> !a.AddUser? && !a.CreateRole? && a.roleId !in t.roles
                                       && (a.AssignRole? || a.RevokeRole? ==> a.userId in t.users))
            && (o == IntegrityError <==> a.AssignRole? && a.userId in t.users && a.roleId in t.roles
                                         && Assignment(a.userId, a.roleId) !in t.userRoles
                                         && a.assignedBy.Some? && a.assignedBy.value !in t.users)
  {
  }

  /** What an operation is for holds after it, exactly if it went through or held before. */
  lemma OperationsTakeEffect(t: Tables, a: Action)
    requires t.Constrained() && Enabled(t, a)
    ensures var t', done := Step(t, a), OutcomeOf(t, a) == Done;
            match a
            case AddUser(u) => u in t'.users
            case CreateRole(r, name, description) => r in t'.roles <==> done && t'.roles[r] == RoleRow(name, description)
            case DeleteRole(r) => r !in t'.roles <==> done || r !in t.roles
            case AssignRole(u, r, when, assigner) =>
              && (Assignment(u, r) in t'.userRoles <==> done || Assignment(u, r) in t.userRoles)
              && (Assignment(u, r) in t'.userRoles && Assignment(u, r) !in t.userRoles ==>
                    t'.userRoles[Assignment(u, r)] == Assigned(when, assigner))
            case RevokeRole(u, r) => Assignment(u, r) !in t'.userRoles <==> done || Assignment(u, r) !in t.userRoles
            case AddPermission(r, name, _) => Holds(t', r, name) <==> done || Holds(t, r, name)
            case RemovePermission(r, name) => !Holds(t', r, name) <==> done || !Holds(t, r, name)
  {
    match a
    case AddPermission(r, name, newId) => if r in t.roles { GrantingHolds(t, r, name, newId, r, name); }
    case RemovePermission(r, name) => if r in t.roles { WithdrawingHolds(t, r, name, r, name); }
    case _ =>
  }

  /** What each operation leaves alone. */
  lemma OperationsTouchNoMore(t: Tables, a: Action)
    requires t.Constrained() && Enabled(t, a)
    ensures var t' := Step(t, a);
            && t'.users == (if a.AddUser? then t.users + {a.userId} else t.users)
            && (forall r :: r in t.roles && !(a.DeleteRole? && a.roleId == r) ==> r in t'.roles && t'.roles[r] == t.roles[r])
            && (forall r :: r in t'.roles && r !in t.roles ==> a.CreateRole? && r == a.roleId)
            && (forall x :: x in t.userRoles && !(a.RevokeRole? && x == Assignment(a.userId, a.roleId)) && !(a.DeleteRole? && x.roleId == a.roleId)
                  ==> x in t'.userRoles && t'.userRoles[x] == t.userRoles[x])
            && (forall x :: x in t'.userRoles && x !in t.userRoles ==> a.AssignRole? && x == Assignment(a.userId, a.roleId))
            && (forall id :: id in t.permissions ==> id in t'.permissions && t'.permissions[id] == t.permissions[id])
            && (forall id :: id in t'.permissions && id !in t.permissions ==>
                  a.AddPermission? && t'.permissions[id] == PermissionRow(a.name, None) && !NameTaken(t.permissions, a.name))
            && (forall l :: l in t.links && !(a.RemovePermission? || a.DeleteRole?) ==> l in t'.links)
            && (forall l: Link :: a.AddUser? || l.roleId != a.roleId ==> (l in t'.links <==> l in t.links))
  {
    if a.AddPermission? {
      OnePermissionMore(t.permissions, Permission(a.name, None), a.newId, a.name);
    }
  }

  /**
   Each operation changes who may do what exactly as its name says, for every user, role and
   permission at once; a refused one changes nothing.
   */
  lemma AuthorizationChangesExactly(t: Tables, a: Action, u: Id, r: Id, name: string)
    requires t.Constrained() && Enabled(t, a)
    ensures GrantsVia(Step(t, a), u, r, name)
       <==> if OutcomeOf(t, a) == Done then ViaAfter(t, a, u, r, name) else GrantsVia(t, u, r, name)
  {
    if OutcomeOf(t, a) == Done {
      match a
      case AddPermission(role, added, newId) => GrantingHolds(t, role, added, newId, r, name);
      case RemovePermission(role, removed) => WithdrawingHolds(t, role, removed, r, name);
      case DeleteRole(gone) =>
        if r != gone && Holds(t, r, name) {
          var id :| Link(r, id) in t.links && id in t.permissions && t.permissions[id].name == name;
          assert Link(r, id) in Step(t, a).links;
        }
      case _ =>
        assert Holds(Step(t, a), r, name) <==> Holds(t, r, name);
    }
  }
}
