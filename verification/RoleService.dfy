/** The role operations of the permission service, over the tables of roles, grants and users. Here
    permissions are sets; PrincipalDelegates says that the refreshed principal of an operator, whose
    permissions are normalised lists, delegates exactly what these sets allow. `admitted` says whether the
    models and namespaces named in a request are active. */
module RoleService {
  import opened Wrappers
  import opened Delegation

  datatype Role = Role(key: string, highRisk: bool, grants: set<Grant>)

  datatype User = User(enabled: bool, emergency: bool, roles: set<string>)

  /** The tables, and the ids of the active models and configuration namespaces. */
  datatype Db = Db(roles: map<string, Role>, users: map<string, User>, models: set<string>, namespaces: set<string>)

  datatype Denial = Denied | NotFound | Invalid | Immutable | KeyTaken

  function RoleGrants(db: Db, ids: set<string>): set<Grant> {
    set r, g | r in ids && r in db.roles && g in db.roles[r].grants :: g
  }

  predicate HasHighRisk(db: Db, ids: set<string>) { exists r :: r in ids && r in db.roles && db.roles[r].highRisk }

  /** The security tier: emergency administrators and holders of the high-risk role. */
  predicate InTier(db: Db, u: string) {
    u in db.users && (db.users[u].emergency || HasHighRisk(db, db.users[u].roles))
  }

  /** The permissions a user below the tier has; a user of the tier has all of them. */
  function Effective(db: Db, u: string): set<Grant> {
    if u in db.users && db.users[u].enabled then set g | g in RoleGrants(db, db.users[u].roles) && ValidGrant(g) else {}
  }

  /** The operator of a request, as refreshed inside the transaction. */
  predicate ActsInTier(db: Db, op: string) { op in db.users && db.users[op].enabled && InTier(db, op) }

  predicate MayManageRoles(db: Db, op: string) {
    ActsInTier(db, op) || SystemGrant("roles.manage") in Effective(db, op)
  }

  predicate Delegable(db: Db, op: string, asked: set<Grant>) { ActsInTier(db, op) || asked <= Effective(db, op) }

  predicate Assigned(db: Db, role: string, u: string) { u in db.users && role in db.users[u].roles }

  /** canReplaceRoleGrants. */
  predicate MayReplaceGrants(db: Db, op: string, role: string, asked: set<Grant>)
    requires role in db.roles
  {
    ActsInTier(db, op) || (!Assigned(db, role, op) && Delegable(db, op, db.roles[role].grants) && Delegable(db, op, asked))
  }

  datatype Request =
    | Create(id: string, key: string, namespaceGrants: set<Grant>, valid: bool, admitted: bool)
    | ReplaceGrants(role: string, part: Part, grants: set<Grant>, valid: bool, admitted: bool)
    | Delete(role: string)
    | AssignRoles(user: string, roles: set<string>)

  /** Which of a role's three grant tables a request replaces. */
  datatype Part = SystemPart | ModelPart | NamespacePart

  predicate InPart(part: Part, g: Grant) {
    match part
    case SystemPart => g.SystemGrant?
    case ModelPart => g.ModelGrant?
    case NamespacePart => g.NamespaceGrant?
  }

  function Replaced(grants: set<Grant>, part: Part, next: set<Grant>): set<Grant> {
    (set g | g in grants && !InPart(part, g)) + next
  }

  /** The validated shape of a request's grants: known codes, of the replaced part. */
  predicate GrantsValid(part: Part, grants: set<Grant>) { forall g :: g in grants ==> InPart(part, g) && ValidGrant(g) }

  function AfterCreate(db: Db, op: string, id: string, key: string, grants: set<Grant>, valid: bool,
      admitted: bool): Result<Db, Denial> {
    if !valid || !GrantsValid(NamespacePart, grants) then Err(Invalid)
    else if !MayManageRoles(db, op) then Err(Denied)
    else if !Delegable(db, op, grants) then Err(Denied)
    else if !admitted then Err(Invalid)
    else if id in db.roles || exists r :: r in db.roles && db.roles[r].key == key then Err(KeyTaken)
    else Ok(db.(roles := db.roles[id := Role(key, false, grants)]))
  }

  /** ReplaceSystemPermissions, ReplaceModelPermissions, and UpdateRole with namespace grants. */
  function ReplaceRoleGrants(db: Db, op: string, role: string, part: Part, grants: set<Grant>, valid: bool,
      admitted: bool): Result<Db, Denial> {
    if !valid || !GrantsValid(part, grants) then Err(Invalid)
    else if !MayManageRoles(db, op) then Err(Denied)
    else if role !in db.roles then Err(NotFound)
    else if db.roles[role].highRisk then Err(Immutable)
    else
      var next := Replaced(db.roles[role].grants, part, grants);
      if !MayReplaceGrants(db, op, role, next) then Err(Denied)
      else if !admitted then Err(Invalid)
      else Ok(db.(roles := db.roles[role := db.roles[role].(grants := next)]))
  }

  /** Deleting a role cascades to its assignments. */
  function DeleteRole(db: Db, op: string, role: string): Result<Db, Denial> {
    if !MayManageRoles(db, op) then Err(Denied)
    else if role !in db.roles then Err(NotFound)
    else if db.roles[role].highRisk then Err(Immutable)
    else if !MayReplaceGrants(db, op, role, db.roles[role].grants) then Err(Denied)
    else Ok(db.(roles := db.roles - {role}, users := map u | u in db.users :: db.users[u].(roles := db.users[u].roles - {role})))
  }

  /** authorizeRoleReplacement. */
  predicate MayAssign(db: Db, op: string, user: string, roles: set<string>)
    requires user in db.users
  {
    && (db.users[user].emergency ==> op in db.users && db.users[op].enabled && db.users[op].emergency)
    && (op == user ==> ActsInTier(db, op))
    && (HasHighRisk(db, db.users[user].roles) || HasHighRisk(db, roles) ==> ActsInTier(db, op))
    && Delegable(db, op, RoleGrants(db, db.users[user].roles)) && Delegable(db, op, RoleGrants(db, roles))
  }

  function ReplaceUserRoles(db: Db, op: string, user: string, roles: set<string>): Result<Db, Denial> {
    if "" in roles then Err(Invalid)
    else if !MayManageRoles(db, op) then Err(Denied)
    else if user !in db.users then Err(NotFound)
    else if !(roles <= db.roles.Keys) then Err(Invalid)
    else if !MayAssign(db, op, user, roles) then Err(Denied)
    else Ok(db.(users := db.users[user := db.users[user].(roles := roles)]))
  }

  function Answer(db: Db, op: string, q: Request): Result<Db, Denial> {
    match q
    case Create(id, key, grants, valid, admitted) => AfterCreate(db, op, id, key, grants, valid, admitted)
    case ReplaceGrants(role, part, grants, valid, admitted) => ReplaceRoleGrants(db, op, role, part, grants, valid, admitted)
    case Delete(role) => DeleteRole(db, op, role)
    case AssignRoles(user, roles) => ReplaceUserRoles(db, op, user, roles)
  }

  function After(db: Db, op: string, q: Request): Db { if Answer(db, op, q).Ok? then Answer(db, op, q).value else db }

  // ---- one step by an operator below the tier ----

  /** Assignments are foreign keys. */
  ghost predicate AssignmentsValid(db: Db) { forall u, r :: u in db.users && r in db.users[u].roles ==> r in db.roles }

  function HighRiskRoles(db: Db): map<string, Role> { map r | r in db.roles && db.roles[r].highRisk :: db.roles[r] }

  lemma {:induction false} StepKeepsAssignments(db: Db, op: string, q: Request)
    requires AssignmentsValid(db)
    ensures AssignmentsValid(After(db, op, q)) && After(db, op, q).users.Keys == db.users.Keys
  {
  }

  /** No request of anyone changes, creates or deletes a high-risk role. */
  lemma {:induction false} HighRiskRoleIsFixed(db: Db, op: string, q: Request)
    ensures HighRiskRoles(After(db, op, q)) == HighRiskRoles(db)
  {
  }

  lemma {:induction false} SameHighRisk(db: Db, next: Db, ids: set<string>, nextIds: set<string>)
    requires HighRiskRoles(next) == HighRiskRoles(db)
    requires forall r :: r in HighRiskRoles(db) ==> (r in nextIds <==> r in ids)
    ensures HasHighRisk(next, nextIds) <==> HasHighRisk(db, ids)
  {
    forall r | r in ids && r in db.roles && db.roles[r].highRisk ensures HasHighRisk(next, nextIds) {
      assert r in HighRiskRoles(db) && r in HighRiskRoles(next);
    }
    forall r | r in nextIds && r in next.roles && next.roles[r].highRisk ensures HasHighRisk(db, ids) {
      assert r in HighRiskRoles(next) && r in HighRiskRoles(db);
    }
  }

  /** An operator below the tier moves nobody into the tier or out of it. */
  lemma {:induction false} TierIsFixed(db: Db, op: string, q: Request, u: string)
    requires AssignmentsValid(db) && !ActsInTier(db, op)
    ensures InTier(After(db, op, q), u) <==> InTier(db, u)
  {
    var next := After(db, op, q);
    HighRiskRoleIsFixed(db, op, q);
    if u in db.users && Answer(db, op, q).Ok? {
      var was, later := db.users[u].roles, next.users[u].roles;
      if q.AssignRoles? && q.user == u {
        SameHighRisk(db, next, q.roles, later);
      } else {
        SameHighRisk(db, next, was, later);
      }
    }
  }

  lemma {:induction false} GrantFrom(db: Db, ids: set<string>, r: string, g: Grant)
    requires r in ids && r in db.roles && g in db.roles[r].grants
    ensures g in RoleGrants(db, ids)
  {
  }

  /** A permission the operator does not have stays where it is among the grants of any roles. */
  lemma {:induction false} UnheldKeptInRoles(db: Db, next: Db, ids: set<string>, nextIds: set<string>, held: set<Grant>,
      g: Grant)
    requires g !in held
    requires forall r :: r in ids && r in db.roles && g in db.roles[r].grants ==>
      r in nextIds && r in next.roles && g in next.roles[r].grants
    requires forall r :: r in nextIds && r in next.roles && g in next.roles[r].grants ==>
      r in ids && r in db.roles && g in db.roles[r].grants
    ensures g in RoleGrants(next, nextIds) <==> g in RoleGrants(db, ids)
  {
    if g in RoleGrants(db, ids) {
      var r :| r in ids && r in db.roles && g in db.roles[r].grants;
      GrantFrom(next, nextIds, r, g);
    }
    if g in RoleGrants(next, nextIds) {
      var r :| r in nextIds && r in next.roles && g in next.roles[r].grants;
      GrantFrom(db, ids, r, g);
    }
  }

  lemma {:induction false} CreateMovesHeld(db: Db, op: string, q: Request, u: string, g: Grant)
    requires AssignmentsValid(db) && !ActsInTier(db, op) && g !in Effective(db, op)
    requires q.Create? && Answer(db, op, q).Ok? && u in db.users
    ensures g in RoleGrants(After(db, op, q), After(db, op, q).users[u].roles) <==> g in RoleGrants(db, db.users[u].roles)
  {
    UnheldKeptInRoles(db, After(db, op, q), db.users[u].roles, After(db, op, q).users[u].roles, Effective(db, op), g);
  }

  lemma {:induction false} ReplaceMovesHeld(db: Db, op: string, q: Request, u: string, g: Grant)
    requires !ActsInTier(db, op) && g !in Effective(db, op) && q.ReplaceGrants? && Answer(db, op, q).Ok?
    requires u in db.users
    ensures g in RoleGrants(After(db, op, q), After(db, op, q).users[u].roles) <==> g in RoleGrants(db, db.users[u].roles)
  {
    var next := After(db, op, q);
    assert g !in db.roles[q.role].grants && g !in next.roles[q.role].grants;
    UnheldKeptInRoles(db, next, db.users[u].roles, next.users[u].roles, Effective(db, op), g);
  }

  lemma {:induction false} DeleteMovesHeld(db: Db, op: string, q: Request, u: string, g: Grant)
    requires !ActsInTier(db, op) && g !in Effective(db, op) && q.Delete? && Answer(db, op, q).Ok? && u in db.users
    ensures g in RoleGrants(After(db, op, q), After(db, op, q).users[u].roles) <==> g in RoleGrants(db, db.users[u].roles)
  {
    var next := After(db, op, q);
    assert g !in db.roles[q.role].grants;
    UnheldKeptInRoles(db, next, db.users[u].roles, next.users[u].roles, Effective(db, op), g);
  }

  lemma {:induction false} AssignMovesHeld(db: Db, op: string, q: Request, u: string, g: Grant)
    requires !ActsInTier(db, op) && g !in Effective(db, op) && q.AssignRoles? && Answer(db, op, q).Ok? && u in db.users
    ensures g in RoleGrants(After(db, op, q), After(db, op, q).users[u].roles) <==> g in RoleGrants(db, db.users[u].roles)
  {
    var next := After(db, op, q);
    if u == q.user {
      assert g !in RoleGrants(db, db.users[u].roles) && g !in RoleGrants(db, q.roles);
      assert RoleGrants(next, q.roles) == RoleGrants(db, q.roles);
    } else {
      UnheldKeptInRoles(db, next, db.users[u].roles, next.users[u].roles, Effective(db, op), g);
    }
  }

  /** An operator below the tier can neither give nor take a permission it does not have itself:
      whatever it does, who has such a permission stays as it was. */
  lemma {:induction false} OnlyHeldPermissionsMove(db: Db, op: string, q: Request, u: string, g: Grant)
    requires AssignmentsValid(db) && !ActsInTier(db, op) && g !in Effective(db, op)
    ensures g in Effective(After(db, op, q), u) <==> g in Effective(db, u)
  {
    if u in db.users && Answer(db, op, q).Ok? {
      match q
      case Create(_, _, _, _, _) => CreateMovesHeld(db, op, q, u, g);
      case ReplaceGrants(_, _, _, _, _) => ReplaceMovesHeld(db, op, q, u, g);
      case Delete(_) => DeleteMovesHeld(db, op, q, u, g);
      case AssignRoles(_, _) => AssignMovesHeld(db, op, q, u, g);
    }
  }

  /** Its own permissions do not change at all: it cannot touch its own roles, their grants or their existence. */
  lemma {:induction false} OwnPermissionsFixed(db: Db, op: string, q: Request)
    requires AssignmentsValid(db) && !ActsInTier(db, op)
    ensures Effective(After(db, op, q), op) == Effective(db, op)
  {
    if op in db.users && Answer(db, op, q).Ok? {
      var next, roles := After(db, op, q), db.users[op].roles;
      assert next.users[op].roles == roles && next.users[op].enabled == db.users[op].enabled;
      assert forall r :: r in roles ==> r in next.roles && r in db.roles && next.roles[r] == db.roles[r];
      assert RoleGrants(next, roles) == RoleGrants(db, roles);
    }
  }

  // ---- runs ----

  /** What the users below the tier have between them. */
  function BelowTier(db: Db): set<Grant> {
    set u, g | u in db.users && !InTier(db, u) && g in Effective(db, u) :: g
  }

  ghost predicate StepAt(states: seq<Db>, ops: seq<string>, requests: seq<Request>, i: nat)
    requires i < |requests| == |ops| < |states|
  {
    !InTier(states[i], ops[i]) && states[i + 1] == After(states[i], ops[i], requests[i])
  }

  ghost predicate IsRun(states: seq<Db>, ops: seq<string>, requests: seq<Request>) {
    && |states| == |requests| + 1 && |ops| == |requests| && AssignmentsValid(states[0])
    && forall i :: 0 <= i < |requests| ==> StepAt(states, ops, requests, i)
  }

  lemma {:induction false} StepClosed(db: Db, op: string, q: Request)
    requires AssignmentsValid(db) && !InTier(db, op)
    ensures BelowTier(After(db, op, q)) <= BelowTier(db)
  {
    var next := After(db, op, q);
    StepKeepsAssignments(db, op, q);
    forall g | g in BelowTier(next) ensures g in BelowTier(db) {
      var u :| u in next.users && !InTier(next, u) && g in Effective(next, u);
      TierIsFixed(db, op, q, u);
      if g in Effective(db, op) {
        assert op in db.users;
      } else {
        OnlyHeldPermissionsMove(db, op, q, u, g);
        assert g in Effective(db, u);
      }
    }
  }

  /** Over any run of role operations by operators below the tier, whoever they are and whatever they
      ask: what the users below the tier have between them never grows, nobody enters or leaves the
      tier, and the high-risk roles stay as they were. */
  lemma {:induction false} RunsAreClosed(states: seq<Db>, ops: seq<string>, requests: seq<Request>, n: nat)
    requires IsRun(states, ops, requests) && n < |states|
    ensures AssignmentsValid(states[n]) && BelowTier(states[n]) <= BelowTier(states[0])
    ensures HighRiskRoles(states[n]) == HighRiskRoles(states[0])
    ensures forall u :: InTier(states[n], u) <==> InTier(states[0], u)
  {
    if n > 0 {
      var last := n - 1;
      RunsAreClosed(states, ops, requests, last);
      assert StepAt(states, ops, requests, last);
      StepKeepsAssignments(states[last], ops[last], requests[last]);
      StepClosed(states[last], ops[last], requests[last]);
      HighRiskRoleIsFixed(states[last], ops[last], requests[last]);
      forall u ensures InTier(states[n], u) <==> InTier(states[0], u) {
        TierIsFixed(states[last], ops[last], requests[last], u);
      }
    }
  }

  /** If one user makes every request of a run, its permissions are at the end what they were at the start. */
  lemma {:induction false} LoneOperatorGainsNothing(states: seq<Db>, ops: seq<string>, requests: seq<Request>,
      op: string, n: nat)
    requires IsRun(states, ops, requests) && n < |states| && forall i :: 0 <= i < |ops| ==> ops[i] == op
    ensures Effective(states[n], op) == Effective(states[0], op)
  {
    if n > 0 {
      var last := n - 1;
      LoneOperatorGainsNothing(states, ops, requests, op, last);
      RunsAreClosed(states, ops, requests, last);
      assert StepAt(states, ops, requests, last);
      OwnPermissionsFixed(states[last], op, requests[last]);
    }
  }

  // ---- what a committed request leaves ----

  /** The grants of one of a role's tables. */
  predicate OfTable(part: Part, g: Grant) {
    (part.SystemPart? && g.SystemGrant?) || (part.ModelPart? && g.ModelGrant?) || (part.NamespacePart? && g.NamespaceGrant?)
  }

  /** Some role of the user grants the permission in a state. */
  predicate GrantedBy(db: Db, u: string, r: string, g: Grant) {
    u in db.users && db.users[u].enabled && r in db.users[u].roles && r in db.roles && g in db.roles[r].grants
  }

  /** A user below the tier has a permission exactly when it is a known one and some role of the user grants it. */
  lemma {:induction false} EffectiveIff(db: Db, u: string, g: Grant)
    ensures g in Effective(db, u) <==> ValidGrant(g) && exists r :: GrantedBy(db, u, r, g)
  {
    if g in Effective(db, u) {
      var r :| r in db.users[u].roles && r in db.roles && g in db.roles[r].grants;
      assert GrantedBy(db, u, r, g);
    }
    if ValidGrant(g) && exists r :: GrantedBy(db, u, r, g) {
      var r :| GrantedBy(db, u, r, g);
      GrantFrom(db, db.users[u].roles, r, g);
    }
  }

  /** The same, with the requested permissions in place of one table of a role. */
  predicate GrantedWith(db: Db, role: string, part: Part, grants: set<Grant>, u: string, r: string, g: Grant) {
    && u in db.users && db.users[u].enabled && r in db.users[u].roles && r in db.roles
    && if r == role && OfTable(part, g) then g in grants else g in db.roles[r].grants
  }

  /** The same, with the requested roles in place of those of a user. */
  predicate GrantedAs(db: Db, user: string, roles: set<string>, u: string, r: string, g: Grant) {
    && u in db.users && db.users[u].enabled && r in (if u == user then roles else db.users[u].roles)
    && r in db.roles && g in db.roles[r].grants
  }

  /** After one of a role's tables was replaced the role grants exactly the requested permissions of that table, what
      was left out is gone, and every other grant is as it was. */
  lemma {:induction false} ReplacedGrantsAre(db: Db, op: string, role: string, part: Part, grants: set<Grant>,
      valid: bool, admitted: bool, u: string, g: Grant)
    requires ReplaceRoleGrants(db, op, role, part, grants, valid, admitted).Ok?
    ensures var next := ReplaceRoleGrants(db, op, role, part, grants, valid, admitted).value;
      g in Effective(next, u) <==> ValidGrant(g) && exists r :: GrantedWith(db, role, part, grants, u, r, g)
  {
    var next := ReplaceRoleGrants(db, op, role, part, grants, valid, admitted).value;
    EffectiveIff(next, u, g);
    forall r ensures GrantedBy(next, u, r, g) <==> GrantedWith(db, role, part, grants, u, r, g) {
      assert InPart(part, g) <==> OfTable(part, g);
    }
  }

  /** After an assignment the user has exactly what the requested roles grant; nobody else is touched. */
  lemma {:induction false} AssignedRolesAre(db: Db, op: string, user: string, roles: set<string>, u: string, g: Grant)
    requires ReplaceUserRoles(db, op, user, roles).Ok?
    ensures var next := ReplaceUserRoles(db, op, user, roles).value;
      g in Effective(next, u) <==> ValidGrant(g) && exists r :: GrantedAs(db, user, roles, u, r, g)
  {
    var next := ReplaceUserRoles(db, op, user, roles).value;
    EffectiveIff(next, u, g);
    forall r ensures GrantedBy(next, u, r, g) <==> GrantedAs(db, user, roles, u, r, g) {}
  }

  /** After a role was deleted everybody has what their other roles grant. */
  lemma {:induction false} DeletedRoleIsGone(db: Db, op: string, role: string, u: string, g: Grant)
    requires DeleteRole(db, op, role).Ok?
    ensures g in Effective(DeleteRole(db, op, role).value, u) <==> ValidGrant(g) && exists r :: r != role && GrantedBy(db, u, r, g)
  {
    var next := DeleteRole(db, op, role).value;
    EffectiveIff(next, u, g);
    forall r ensures GrantedBy(next, u, r, g) <==> r != role && GrantedBy(db, u, r, g) {}
  }

  // ---- the principal of an operator ----

  /** What a user of the tier is given: every code, on every active model and namespace. */
  function AllPermissions(db: Db): set<Grant> {
    (set c | c in SYSTEM_CODES :: SystemGrant(c))
    + (set m, c | m in db.models && c in MODEL_CODES :: ModelGrant(m, c))
    + (set n, c | n in db.namespaces && c in NAMESPACE_CODES :: NamespaceGrant(n, c))
  }

  function HeldBy(db: Db, op: string): set<Grant> {
    if ActsInTier(db, op) then set g | g in AllPermissions(db) && ValidGrant(g) else Effective(db, op)
  }

  /** The principal a transaction refreshes its operator to. */
  ghost predicate IsPrincipal(db: Db, op: string, p: Principal) {
    var enabled := op in db.users && db.users[op].enabled;
    && p.userId == op
    && p.emergencyAdmin == (enabled && db.users[op].emergency)
    && p.highRiskRole == (enabled && HasHighRisk(db, db.users[op].roles))
    && Normalized(p.held) && Grants(p.held) == HeldBy(db, op)
  }

  /** CanDelegate on the refreshed principal, list by list, allows exactly what the sets allow. */
  lemma {:induction false} PrincipalDelegates(db: Db, op: string, p: Principal, asked: PermissionSet)
    requires IsPrincipal(db, op, p)
    ensures CanManageSecurityTier(p) <==> ActsInTier(db, op)
    ensures CanDelegate(p, asked) <==> Delegable(db, op, Grants(asked))
    ensures "roles.manage" in p.held.system <==> MayManageRoles(db, op)
  {
    CanDelegateIsInclusion(p, asked);
    MembersOfGrants(p.held);
    assert "roles.manage" in p.held.system <==> SystemGrant("roles.manage") in Grants(p.held);
    assert SystemGrant("roles.manage") in AllPermissions(db) && ValidGrant(SystemGrant("roles.manage"));
  }
}
