/** The role operations as they run: the operator is refreshed to a normalised principal, whose lists are
    compared with the lists of the roles involved. */
module RoleTransactions {
  import opened Wrappers
  import opened Delegation
  import opened RoleService

  function Joined(a: PermissionSet, b: PermissionSet): PermissionSet {
    PermissionSet(a.system + b.system, a.models + b.models, a.namespaces + b.namespaces)
  }

  lemma {:induction false} JoinedGrants(a: PermissionSet, b: PermissionSet)
    ensures Grants(Joined(a, b)) == Grants(a) + Grants(b)
  {
    JoinedPairs(a.models, b.models);
    JoinedPairs(a.namespaces, b.namespaces);
    MembersOfGrants(a);
    MembersOfGrants(b);
    MembersOfGrants(Joined(a, b));
    forall g ensures g in Grants(Joined(a, b)) <==> g in Grants(a) + Grants(b) {
      match g
      case SystemGrant(c) =>
      case ModelGrant(id, c) => assert (id, c) in ScopedPairs(a.models + b.models) <==> ModelGrant(id, c) in Grants(Joined(a, b));
      case NamespaceGrant(id, c) =>
        assert (id, c) in ScopedPairs(a.namespaces + b.namespaces) <==> NamespaceGrant(id, c) in Grants(Joined(a, b));
    }
  }

  lemma {:induction false} JoinedPairs(a: seq<Scoped>, b: seq<Scoped>)
    ensures ScopedPairs(a + b) == ScopedPairs(a) + ScopedPairs(b)
  {
    assert forall g :: g in a + b <==> g in a || g in b;
  }

  /** The list a single row of a grant table adds. */
  function Single(g: Grant): PermissionSet {
    match g
    case SystemGrant(c) => PermissionSet([c], [], [])
    case ModelGrant(id, c) => PermissionSet([], [Scoped(id, [c])], [])
    case NamespaceGrant(id, c) => PermissionSet([], [], [Scoped(id, [c])])
  }

  lemma SingleGrants(g: Grant)
    ensures Grants(Single(g)) == {g}
  {
    MembersOfGrants(Single(g));
    match g
    case SystemGrant(c) =>
    case ModelGrant(id, c) => SinglePair(id, c);
    case NamespaceGrant(id, c) => SinglePair(id, c);
  }

  lemma SinglePair(id: string, c: string)
    ensures ScopedPairs([Scoped(id, [c])]) == {(id, c)}
  {
    var list := [Scoped(id, [c])];
    assert list[0] in list && c in list[0].permissions;
  }

  const EMPTY_SET: PermissionSet := PermissionSet([], [], [])

  /** The rows of the grant tables as lists. */
  method ListGrants(grants: set<Grant>) returns (p: PermissionSet)
    ensures Grants(p) == grants
  {
    p := EMPTY_SET;
    var todo := grants;
    while todo != {}
      invariant todo <= grants && Grants(p) == grants - todo
      decreases todo
    {
      var g :| g in todo;
      SingleGrants(g);
      JoinedGrants(p, Single(g));
      p := Joined(p, Single(g));
      todo := todo - {g};
    }
  }

  lemma {:induction false} OneMoreRole(db: Db, done: set<string>, r: string)
    requires r in db.roles
    ensures RoleGrants(db, done + {r}) == RoleGrants(db, done) + db.roles[r].grants
  {
    forall g | g in db.roles[r].grants ensures g in RoleGrants(db, done + {r}) { GrantFrom(db, done + {r}, r, g); }
    forall g | g in RoleGrants(db, done) ensures g in RoleGrants(db, done + {r}) {
      var x :| x in done && x in db.roles && g in db.roles[x].grants;
      GrantFrom(db, done + {r}, x, g);
    }
  }

  class Service {
    var roles: map<string, Role>
    var users: map<string, User>
    var models: set<string>
    var namespaces: set<string>

    ghost function State(): Db
      reads this
    {
      Db(roles, users, models, namespaces)
    }

    constructor (db: Db)
      ensures State() == db
    {
      roles, users, models, namespaces := db.roles, db.users, db.models, db.namespaces;
    }

    /** The lists of some roles, one after the other, and whether a high-risk role is among them:
        LockRoleTransition and the loop of the permission provider. Ids without a role are passed over. */
    method CollectGrants(ids: set<string>) returns (permissions: PermissionSet, highRisk: bool)
      ensures Grants(permissions) == RoleGrants(State(), ids) && highRisk == HasHighRisk(State(), ids)
    {
      permissions, highRisk := EMPTY_SET, false;
      var todo := ids;
      assert RoleGrants(State(), ids - todo) == {};
      while todo != {}
        invariant todo <= ids && Grants(permissions) == RoleGrants(State(), ids - todo)
        invariant highRisk == HasHighRisk(State(), ids - todo)
        decreases todo
      {
        var r :| r in todo;
        assert ids - (todo - {r}) == ids - todo + {r};
        if r in roles {
          OneMoreRole(State(), ids - todo, r);
          var list := ListGrants(roles[r].grants);
          JoinedGrants(permissions, list);
          permissions := Joined(permissions, list);
          highRisk := highRisk || roles[r].highRisk;
        } else {
          assert RoleGrants(State(), ids - todo + {r}) == RoleGrants(State(), ids - todo);
        }
        todo := todo - {r};
      }
      assert ids - {} == ids;
    }

    /** The union of an enabled user's roles, or everything if the user is of the security tier. */
    method Permissions(op: string) returns (permissions: PermissionSet, emergency: bool, highRisk: bool)
      ensures emergency == (op in users && users[op].enabled && users[op].emergency)
      ensures highRisk == (op in users && users[op].enabled && HasHighRisk(State(), users[op].roles))
      ensures Grants(permissions) ==
        if ActsInTier(State(), op) then AllPermissions(State())
        else if op in users && users[op].enabled then RoleGrants(State(), users[op].roles) else {}
    {
      if op !in users || !users[op].enabled { return EMPTY_SET, false, false; }
      permissions, highRisk := CollectGrants(users[op].roles);
      emergency := users[op].emergency;
      if emergency || highRisk {
        permissions := ListGrants(AllPermissions(Db(roles, users, models, namespaces)));
      }
    }

    /** The operator as refreshed inside the transaction. */
    method CurrentPrincipal(op: string) returns (p: Principal)
      ensures IsPrincipal(State(), op, p)
    {
      var permissions, emergency, highRisk := Permissions(op);
      p := NewPrincipal(op, emergency, highRisk, permissions);
      assert forall g :: g in Grants(p.held) <==> g in HeldBy(State(), op);
    }

    /** The operator is refreshed and asked for roles.manage. */
    method Manager(op: string) returns (p: Principal, allowed: bool)
      ensures IsPrincipal(State(), op, p) && allowed == MayManageRoles(State(), op)
      ensures CanManageSecurityTier(p) == ActsInTier(State(), op)
    {
      p := CurrentPrincipal(op);
      PrincipalDelegates(State(), op, p, EMPTY_SET);
      allowed := "roles.manage" in p.held.system;
    }

    /** CanDelegate on the lists of a set of grants. */
    method Delegates(p: Principal, grants: set<Grant>) returns (ok: bool)
      requires IsPrincipal(State(), p.userId, p)
      ensures ok == Delegable(State(), p.userId, grants)
    {
      var list := ListGrants(grants);
      PrincipalDelegates(State(), p.userId, p, list);
      ok := MayDelegate(p, list);
    }

    method CreateRole(op: string, id: string, key: string, grants: set<Grant>, valid: bool, admitted: bool)
      returns (denial: Option<Denial>)
      modifies this`roles
      ensures denial.None? ==> AfterCreate(old(State()), op, id, key, grants, valid, admitted) == Ok(State())
      ensures denial.Some? ==> State() == old(State())
      ensures denial.Some? ==> AfterCreate(old(State()), op, id, key, grants, valid, admitted) == Err(denial.value)
    {
      if !valid || !GrantsValid(NamespacePart, grants) { return Some(Invalid); }
      var p, allowed := Manager(op);
      if !allowed { return Some(Denied); }
      var may := Delegates(p, grants);
      if !may { return Some(Denied); }
      if !admitted { return Some(Invalid); }
      if id in roles || exists r :: r in roles.Keys && roles[r].key == key { return Some(KeyTaken); }
      roles := roles[id := Role(key, false, grants)];
      return None;
    }

    /** canReplaceRoleGrants, asked only of operators below the tier. */
    method CanReplaceRoleGrants(p: Principal, role: string, requested: set<Grant>) returns (ok: bool)
      requires role in roles && IsPrincipal(State(), p.userId, p)
      ensures ok == MayReplaceGrants(State(), p.userId, role, requested)
    {
      PrincipalDelegates(State(), p.userId, p, EMPTY_SET);
      if p.emergencyAdmin || p.highRiskRole { return true; }
      if p.userId in users && role in users[p.userId].roles { return false; }
      ok := Delegates(p, roles[role].grants);
      if ok { ok := Delegates(p, requested); }
    }

    method ReplaceGrants(op: string, role: string, part: Part, grants: set<Grant>, valid: bool, admitted: bool)
      returns (denial: Option<Denial>)
      modifies this`roles
      ensures denial.None? ==> ReplaceRoleGrants(old(State()), op, role, part, grants, valid, admitted) == Ok(State())
      ensures denial.Some? ==> State() == old(State())
      ensures denial.Some? ==> ReplaceRoleGrants(old(State()), op, role, part, grants, valid, admitted) == Err(denial.value)
    {
      if !valid || !GrantsValid(part, grants) { return Some(Invalid); }
      var p, allowed := Manager(op);
      if !allowed { return Some(Denied); }
      if role !in roles { return Some(NotFound); }
      if roles[role].highRisk { return Some(Immutable); }
      var next := Replaced(roles[role].grants, part, grants);
      var may := CanReplaceRoleGrants(p, role, next);
      if !may { return Some(Denied); }
      if !admitted { return Some(Invalid); }
      roles := roles[role := roles[role].(grants := next)];
      return None;
    }

    method Delete(op: string, role: string) returns (denial: Option<Denial>)
      modifies this
      ensures denial.None? ==> DeleteRole(old(State()), op, role) == Ok(State())
      ensures denial.Some? ==> State() == old(State())
      ensures denial.Some? ==> DeleteRole(old(State()), op, role) == Err(denial.value)
    {
      var p, allowed := Manager(op);
      if !allowed { return Some(Denied); }
      if role !in roles { return Some(NotFound); }
      if roles[role].highRisk { return Some(Immutable); }
      var may := CanReplaceRoleGrants(p, role, roles[role].grants);
      if !may { return Some(Denied); }
      roles := roles - {role};
      users := map u | u in users :: users[u].(roles := users[u].roles - {role});
      return None;
    }

    method AssignRoles(op: string, user: string, requested: set<string>) returns (denial: Option<Denial>)
      modifies this`users
      ensures denial.None? ==> ReplaceUserRoles(old(State()), op, user, requested) == Ok(State())
      ensures denial.Some? ==> State() == old(State())
      ensures denial.Some? ==> ReplaceUserRoles(old(State()), op, user, requested) == Err(denial.value)
    {
      if "" in requested { return Some(Invalid); }
      var p, allowed := Manager(op);
      if !allowed { return Some(Denied); }
      if user !in users { return Some(NotFound); }
      if !(requested <= roles.Keys) { return Some(Invalid); }
      var may := AuthorizeRoleReplacement(p, user, requested);
      if !may { return Some(Denied); }
      users := users[user := users[user].(roles := requested)];
      return None;
    }

    method AuthorizeRoleReplacement(p: Principal, user: string, requested: set<string>) returns (ok: bool)
      requires user in users && IsPrincipal(State(), p.userId, p)
      ensures ok == MayAssign(State(), p.userId, user, requested)
    {
      var current, currentHighRisk := CollectGrants(users[user].roles);
      var asked, askedHighRisk := CollectGrants(requested);
      PrincipalDelegates(State(), p.userId, p, current);
      PrincipalDelegates(State(), p.userId, p, asked);
      var tier := p.emergencyAdmin || p.highRiskRole;
      if users[user].emergency && !p.emergencyAdmin { return false; }
      if p.userId == user && !tier { return false; }
      if (currentHighRisk || askedHighRisk) && !tier { return false; }
      ok := MayDelegate(p, current);
      if ok { ok := MayDelegate(p, asked); }
    }
  }
}
