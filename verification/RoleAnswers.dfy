/** The answers of the role operations, said of what the operator holds and of the roles and users involved. */
module RoleAnswers {
  import opened Wrappers
  import opened Delegation
  import opened RoleService

  // ---- the operator ----

  predicate Enabled(db: Db, op: string) { op in db.users && db.users[op].enabled }

  /** The operator is enabled and an emergency administrator or the holder of a high-risk role. */
  predicate IsTier(db: Db, op: string) {
    Enabled(db, op) && (db.users[op].emergency || exists r :: r in db.users[op].roles && r in db.roles && db.roles[r].highRisk)
  }

  /** Some role of the enabled operator grants the permission, and it is a known one. */
  predicate Has(db: Db, op: string, g: Grant) {
    Enabled(db, op) && ValidGrant(g) && exists r :: r in db.users[op].roles && r in db.roles && g in db.roles[r].grants
  }

  predicate HasAll(db: Db, op: string, grants: set<Grant>) { forall g :: g in grants ==> Has(db, op, g) }

  /** Only operators of the tier or with roles.manage may change roles at all. */
  predicate Manages(db: Db, op: string) { IsTier(db, op) || Has(db, op, SystemGrant("roles.manage")) }

  lemma {:induction false} HasIff(db: Db, op: string, g: Grant)
    ensures g in Effective(db, op) <==> Has(db, op, g)
  {
    EffectiveIff(db, op, g);
    if Has(db, op, g) {
      var r :| r in db.users[op].roles && r in db.roles && g in db.roles[r].grants;
      assert GrantedBy(db, op, r, g);
    }
  }

  lemma {:induction false} OperatorIs(db: Db, op: string, grants: set<Grant>)
    ensures ActsInTier(db, op) <==> IsTier(db, op)
    ensures MayManageRoles(db, op) <==> Manages(db, op)
    ensures Delegable(db, op, grants) <==> IsTier(db, op) || HasAll(db, op, grants)
  {
    HasIff(db, op, SystemGrant("roles.manage"));
    forall g ensures g in Effective(db, op) <==> Has(db, op, g) { HasIff(db, op, g); }
  }

  // ---- the answers ----

  /** Permissions of configuration namespaces only, and known ones. */
  predicate NamespaceGrantsOnly(grants: set<Grant>) { forall g :: g in grants ==> g.NamespaceGrant? && ValidGrant(g) }

  /** A role is created with the requested permissions, and not as a high-risk one, exactly when the operator manages
      roles and has all of them, and id and key are new. */
  lemma {:induction false} CreateRoleAnswer(db: Db, op: string, id: string, key: string, grants: set<Grant>,
      valid: bool, admitted: bool)
    ensures var answer := AfterCreate(db, op, id, key, grants, valid, admitted);
      if !valid || !NamespaceGrantsOnly(grants) then answer == Err(Invalid)
      else if !Manages(db, op) || !(IsTier(db, op) || HasAll(db, op, grants)) then answer == Err(Denied)
      else if !admitted then answer == Err(Invalid)
      else if id in db.roles || exists r :: r in db.roles && db.roles[r].key == key then answer == Err(KeyTaken)
      else answer == Ok(db.(roles := db.roles[id := Role(key, false, grants)]))
  {
    OperatorIs(db, op, grants);
  }

  predicate TableGrantsOnly(part: Part, grants: set<Grant>) {
    forall g :: g in grants ==> OfTable(part, g) && ValidGrant(g)
  }

  /** The role's grants with one table replaced. */
  function WithTable(grants: set<Grant>, part: Part, next: set<Grant>): set<Grant> {
    (set g | g in grants && !OfTable(part, g)) + next
  }

  /** The operator may change the role: it is of the tier, or does not have the role itself and has everything the
      role grants, before and after. */
  predicate MayChange(db: Db, op: string, role: string, next: set<Grant>)
    requires role in db.roles
  {
    IsTier(db, op) || (!(op in db.users && role in db.users[op].roles) && HasAll(db, op, db.roles[role].grants) && HasAll(db, op, next))
  }

  /** One table of a role is replaced exactly when the operator manages roles and may change this one, and it is not a
      high-risk role. */
  lemma {:induction false} ReplaceGrantsAnswer(db: Db, op: string, role: string, part: Part, grants: set<Grant>,
      valid: bool, admitted: bool)
    ensures var answer := ReplaceRoleGrants(db, op, role, part, grants, valid, admitted);
      if !valid || !TableGrantsOnly(part, grants) then answer == Err(Invalid)
      else if !Manages(db, op) then answer == Err(Denied)
      else if role !in db.roles then answer == Err(NotFound)
      else if db.roles[role].highRisk then answer == Err(Immutable)
      else
        var next := WithTable(db.roles[role].grants, part, grants);
        if !MayChange(db, op, role, next) then answer == Err(Denied)
        else if !admitted then answer == Err(Invalid)
        else answer == Ok(db.(roles := db.roles[role := Role(db.roles[role].key, false, next)]))
  {
    assert forall g :: InPart(part, g) <==> OfTable(part, g);
    if role in db.roles {
      assert Replaced(db.roles[role].grants, part, grants) == WithTable(db.roles[role].grants, part, grants);
      OperatorIs(db, op, db.roles[role].grants);
      OperatorIs(db, op, WithTable(db.roles[role].grants, part, grants));
    } else {
      OperatorIs(db, op, {});
    }
  }

  /** A role is deleted, with its assignments, under the same conditions. */
  lemma {:induction false} DeleteRoleAnswer(db: Db, op: string, role: string)
    ensures var answer := DeleteRole(db, op, role);
      if !Manages(db, op) then answer == Err(Denied)
      else if role !in db.roles then answer == Err(NotFound)
      else if db.roles[role].highRisk then answer == Err(Immutable)
      else if !MayChange(db, op, role, db.roles[role].grants) then answer == Err(Denied)
      else
        && answer.Ok? && answer.value.roles == db.roles - {role} && answer.value.users.Keys == db.users.Keys
        && answer.value.models == db.models && answer.value.namespaces == db.namespaces
        && forall u :: u in db.users ==> answer.value.users[u] == db.users[u].(roles := db.users[u].roles - {role})
  {
    OperatorIs(db, op, if role in db.roles then db.roles[role].grants else {});
  }

  predicate AnyHighRisk(db: Db, roles: set<string>) { exists r :: r in roles && r in db.roles && db.roles[r].highRisk }

  /** Every permission of every one of these roles. */
  predicate HasRoles(db: Db, op: string, roles: set<string>) {
    forall r :: r in roles && r in db.roles ==> HasAll(db, op, db.roles[r].grants)
  }

  lemma {:induction false} HasRolesIff(db: Db, op: string, roles: set<string>)
    ensures HasAll(db, op, RoleGrants(db, roles)) <==> HasRoles(db, op, roles)
  {
    if HasAll(db, op, RoleGrants(db, roles)) {
      forall r, g | r in roles && r in db.roles && g in db.roles[r].grants ensures Has(db, op, g) { GrantFrom(db, roles, r, g); }
    }
  }

  /** The operator may give the user these roles for the present ones: only an emergency administrator touches another,
      only the tier touches itself or a high-risk role, and anybody else has every permission of both. */
  predicate MayGive(db: Db, op: string, user: string, roles: set<string>)
    requires user in db.users
  {
    && (db.users[user].emergency ==> Enabled(db, op) && db.users[op].emergency)
    && (IsTier(db, op)
        || (op != user && !AnyHighRisk(db, db.users[user].roles) && !AnyHighRisk(db, roles)
            && HasRoles(db, op, db.users[user].roles) && HasRoles(db, op, roles)))
  }

  /** A user's roles are replaced exactly when the operator manages roles and may give them, and all of them exist. */
  lemma {:induction false} AssignRolesAnswer(db: Db, op: string, user: string, roles: set<string>)
    ensures var answer := ReplaceUserRoles(db, op, user, roles);
      if "" in roles then answer == Err(Invalid)
      else if !Manages(db, op) then answer == Err(Denied)
      else if user !in db.users then answer == Err(NotFound)
      else if exists r :: r in roles && r !in db.roles then answer == Err(Invalid)
      else if !MayGive(db, op, user, roles) then answer == Err(Denied)
      else answer == Ok(db.(users := db.users[user := db.users[user].(roles := roles)]))
  {
    OperatorIs(db, op, RoleGrants(db, roles));
    HasRolesIff(db, op, roles);
    if user in db.users {
      OperatorIs(db, op, RoleGrants(db, db.users[user].roles));
      HasRolesIff(db, op, db.users[user].roles);
    }
  }
}
