/** Principals and what they may delegate. Permission sets are lists, as in the source; the order in
    which a normalised list is sorted is not modelled. */
module Delegation {

  /** The permissions on one content model or configuration namespace. */
  datatype Scoped = Scoped(id: string, permissions: seq<string>)

  datatype PermissionSet = PermissionSet(system: seq<string>, models: seq<Scoped>, namespaces: seq<Scoped>)

  datatype Principal = Principal(userId: string, emergencyAdmin: bool, highRiskRole: bool, held: PermissionSet)

  /** One permission. */
  datatype Grant = SystemGrant(code: string) | ModelGrant(id: string, code: string) | NamespaceGrant(id: string, code: string)

  function ScopedPairs(list: seq<Scoped>): set<(string, string)> {
    set g, c | g in list && c in g.permissions :: (g.id, c)
  }

  /** The permissions a set of lists grants, however they are split and repeated. */
  function Grants(p: PermissionSet): set<Grant> {
    (set c | c in p.system :: SystemGrant(c))
    + (set g, c | g in p.models && c in g.permissions :: ModelGrant(g.id, c))
    + (set g, c | g in p.namespaces && c in g.permissions :: NamespaceGrant(g.id, c))
  }

  predicate CanManageSecurityTier(p: Principal) { p.emergencyAdmin || p.highRiskRole }

  /** The entry a Go map holds for `id` after the list was written to it in order. */
  function LastEntry(list: seq<Scoped>, id: string): seq<string> {
    if list == [] then []
    else if list[|list| - 1].id == id then list[|list| - 1].permissions
    else LastEntry(list[..|list| - 1], id)
  }

  predicate Covers(held: seq<Scoped>, asked: seq<Scoped>) {
    forall g, c :: g in asked && c in g.permissions ==> c in LastEntry(held, g.id)
  }

  predicate CanDelegate(p: Principal, asked: PermissionSet) {
    || CanManageSecurityTier(p)
    || (&& (forall c :: c in asked.system ==> c in p.held.system)
        && Covers(p.held.models, asked.models) && Covers(p.held.namespaces, asked.namespaces))
  }

  // ---- delegation is inclusion ----

  predicate DistinctScopes(list: seq<Scoped>) { forall i, j :: 0 <= i < j < |list| ==> list[i].id != list[j].id }

  predicate Normalized(p: PermissionSet) { DistinctScopes(p.models) && DistinctScopes(p.namespaces) }

  lemma {:induction false} LastEntryHeld(list: seq<Scoped>, id: string, c: string)
    requires c in LastEntry(list, id)
    ensures exists g :: g in list && g.id == id && c in g.permissions
  {
    var last := list[|list| - 1];
    if last.id == id {
      assert last in list;
    } else {
      LastEntryHeld(list[..|list| - 1], id, c);
      var g :| g in list[..|list| - 1] && g.id == id && c in g.permissions;
      assert g in list;
    }
  }

  lemma {:induction false} OnlyEntry(list: seq<Scoped>, i: nat)
    requires DistinctScopes(list) && i < |list|
    ensures LastEntry(list, list[i].id) == list[i].permissions
  {
    if i < |list| - 1 {
      assert list[..|list| - 1][i] == list[i];
      OnlyEntry(list[..|list| - 1], i);
    }
  }

  lemma {:induction false} CoversIsInclusion(held: seq<Scoped>, asked: seq<Scoped>)
    requires DistinctScopes(held)
    ensures Covers(held, asked) <==> ScopedPairs(asked) <= ScopedPairs(held)
  {
    forall id, c ensures c in LastEntry(held, id) <==> (id, c) in ScopedPairs(held) {
      if c in LastEntry(held, id) { LastEntryHeld(held, id, c); }
      if (id, c) in ScopedPairs(held) {
        var g :| g in held && g.id == id && c in g.permissions;
        var i :| 0 <= i < |held| && held[i] == g;
        OnlyEntry(held, i);
      }
    }
    forall g, c | g in asked && c in g.permissions ensures (g.id, c) in ScopedPairs(asked) {}
    if ScopedPairs(asked) <= ScopedPairs(held) {
      forall g, c | g in asked && c in g.permissions ensures c in LastEntry(held, g.id) {
        assert (g.id, c) in ScopedPairs(asked);
      }
    }
  }

  lemma {:induction false} GrantsInclusion(held: PermissionSet, asked: PermissionSet)
    ensures Grants(asked) <= Grants(held) <==>
      && (forall c :: c in asked.system ==> c in held.system)
      && ScopedPairs(asked.models) <= ScopedPairs(held.models) && ScopedPairs(asked.namespaces) <= ScopedPairs(held.namespaces)
  {
    forall p: PermissionSet, c ensures SystemGrant(c) in Grants(p) <==> c in p.system {}
    forall p: PermissionSet, id, c ensures ModelGrant(id, c) in Grants(p) <==> (id, c) in ScopedPairs(p.models) {}
    forall p: PermissionSet, id, c ensures NamespaceGrant(id, c) in Grants(p) <==> (id, c) in ScopedPairs(p.namespaces) {}
    if Grants(asked) <= Grants(held) {
      forall c | c in asked.system ensures c in held.system { assert SystemGrant(c) in Grants(asked); }
      forall x | x in ScopedPairs(asked.models) ensures x in ScopedPairs(held.models) { assert ModelGrant(x.0, x.1) in Grants(asked); }
      forall x | x in ScopedPairs(asked.namespaces)
        ensures x in ScopedPairs(held.namespaces) { assert NamespaceGrant(x.0, x.1) in Grants(asked); }
    } else {
      var g :| g in Grants(asked) && g !in Grants(held);
      match g
      case SystemGrant(c) => assert c in asked.system && c !in held.system;
      case ModelGrant(id, c) => assert (id, c) in ScopedPairs(asked.models) && (id, c) !in ScopedPairs(held.models);
      case NamespaceGrant(id, c) => assert (id, c) in ScopedPairs(asked.namespaces) && (id, c) !in ScopedPairs(held.namespaces);
    }
  }

  /** A normalised principal below the security tier may delegate exactly the permissions it holds. */
  lemma {:induction false} CanDelegateIsInclusion(p: Principal, asked: PermissionSet)
    requires Normalized(p.held)
    ensures CanDelegate(p, asked) <==> CanManageSecurityTier(p) || Grants(asked) <= Grants(p.held)
  {
    CoversIsInclusion(p.held.models, asked.models);
    CoversIsInclusion(p.held.namespaces, asked.namespaces);
    GrantsInclusion(p.held, asked);
  }

  // ---- the loops ----

  /** CanDelegate's scoped part: a map of the held entries, then a scan of the asked ones. */
  method CoversAsked(held: seq<Scoped>, asked: seq<Scoped>) returns (ok: bool)
    ensures ok <==> Covers(held, asked)
  {
    var byId: map<string, seq<string>> := map[];
    for i := 0 to |held|
      invariant forall id :: (if id in byId then byId[id] else []) == LastEntry(held[..i], id)
    {
      assert held[..i + 1][..i] == held[..i];
      byId := byId[held[i].id := held[i].permissions];
    }
    assert held[..|held|] == held;
    for i := 0 to |asked|
      invariant forall k, c :: 0 <= k < i && c in asked[k].permissions ==> c in LastEntry(held, asked[k].id)
    {
      var allowed := if asked[i].id in byId then byId[asked[i].id] else [];
      for j := 0 to |asked[i].permissions|
        invariant forall k :: 0 <= k < j ==> asked[i].permissions[k] in allowed
      {
        if asked[i].permissions[j] !in allowed {
          assert asked[i] in asked && asked[i].permissions[j] in asked[i].permissions;
          return false;
        }
      }
    }
    forall g, c | g in asked && c in g.permissions ensures c in LastEntry(held, g.id) {
      var k :| 0 <= k < |asked| && asked[k] == g;
    }
    return true;
  }

  method MayDelegate(p: Principal, asked: PermissionSet) returns (ok: bool)
    ensures ok <==> CanDelegate(p, asked)
  {
    if p.emergencyAdmin || p.highRiskRole { return true; }
    for i := 0 to |asked.system|
      invariant forall k :: 0 <= k < i ==> asked.system[k] in p.held.system
    {
      if asked.system[i] !in p.held.system { return false; }
    }
    ok := CoversAsked(p.held.models, asked.models);
    if ok { ok := CoversAsked(p.held.namespaces, asked.namespaces); }
  }

  /** The valid codes of a list, once each. */
  method ValidUnique(values: seq<string>, allowed: set<string>) returns (r: seq<string>)
    ensures forall c :: c in r <==> c in values && c in allowed
    ensures forall i, j :: 0 <= i < j < |r| ==> r[i] != r[j]
  {
    r := [];
    for i := 0 to |values|
      invariant forall c :: c in r <==> c in values[..i] && c in allowed
      invariant forall k, l :: 0 <= k < l < |r| ==> r[k] != r[l]
    {
      assert values[..i + 1] == values[..i] + [values[i]];
      if values[i] in allowed && values[i] !in r { r := r + [values[i]]; }
    }
    assert values[..|values|] == values;
  }

  /** normalizeModels and normalizeConfigNamespaces: one entry a scope, holding every valid code any of
      its entries held; scopes without an id or without codes disappear. */
  method NormalizeScoped(values: seq<Scoped>, allowed: set<string>) returns (r: seq<Scoped>)
    ensures DistinctScopes(r)
    ensures forall id, c :: (id, c) in ScopedPairs(r) <==> (id, c) in ScopedPairs(values) && id != "" && c in allowed
    ensures forall g :: g in r ==> g.id != "" && g.permissions != []
  {
    var merged: map<string, seq<string>> := map[];
    for i := 0 to |values|
      invariant "" !in merged
      invariant forall id, c :: id in merged && c in merged[id] <==> (id, c) in ScopedPairs(values[..i]) && id != ""
    {
      assert values[..i + 1] == values[..i] + [values[i]];
      MorePairs(values[..i], values[i]);
      if values[i].id != "" {
        var before := if values[i].id in merged then merged[values[i].id] else [];
        merged := merged[values[i].id := before + values[i].permissions];
      }
    }
    assert values[..|values|] == values;
    r := [];
    var todo := merged.Keys;
    while todo != {}
      invariant todo <= merged.Keys && DistinctScopes(r)
      invariant forall g :: g in r ==> g.id in merged && g.id !in todo && g.permissions != []
      invariant forall id, c :: (id, c) in ScopedPairs(r) <==> id in merged && id !in todo && c in merged[id] && c in allowed
      decreases todo
    {
      var id :| id in todo;
      var permissions := ValidUnique(merged[id], allowed);
      if permissions != [] {
        MorePairs(r, Scoped(id, permissions));
        r := r + [Scoped(id, permissions)];
      }
      todo := todo - {id};
    }
  }

  lemma {:induction false} MorePairs(list: seq<Scoped>, g: Scoped)
    ensures forall id, c :: (id, c) in ScopedPairs(list + [g]) <==> (id, c) in ScopedPairs(list) || (id == g.id && c in g.permissions)
  {
    forall id, c | id == g.id && c in g.permissions ensures (id, c) in ScopedPairs(list + [g]) {
      assert g in list + [g];
    }
    forall id, c | (id, c) in ScopedPairs(list) ensures (id, c) in ScopedPairs(list + [g]) {
      var h :| h in list && h.id == id && c in h.permissions;
      assert h in list + [g];
    }
  }

  const SYSTEM_CODES: set<string> := {
    "users.view", "users.manage", "roles.view", "roles.manage", "models.view", "models.create", "models.update", "models.archive",
    "configurations.view", "configurations.create", "configurations.update", "configurations.archive",
    "assets.view", "assets.upload", "assets.update", "assets.archive", "api_keys.view", "api_keys.create", "api_keys.revoke", "audit.view"}

  const MODEL_CODES: set<string> := {
    "content.view", "content.create", "content.update", "content.archive",
    "content.submit", "content.review", "content.publish", "content.unpublish"}

  const NAMESPACE_CODES: set<string> := {
    "config.view", "config.create", "config.update", "config.archive",
    "config.submit", "config.review", "config.publish", "config.unpublish"}

  predicate ValidGrant(g: Grant) {
    match g
    case SystemGrant(c) => c in SYSTEM_CODES
    case ModelGrant(id, c) => id != "" && c in MODEL_CODES
    case NamespaceGrant(id, c) => id != "" && c in NAMESPACE_CODES
  }

  lemma {:induction false} MembersOfGrants(p: PermissionSet)
    ensures forall c :: SystemGrant(c) in Grants(p) <==> c in p.system
    ensures forall id, c :: ModelGrant(id, c) in Grants(p) <==> (id, c) in ScopedPairs(p.models)
    ensures forall id, c :: NamespaceGrant(id, c) in Grants(p) <==> (id, c) in ScopedPairs(p.namespaces)
  {
  }

  /** NewPrincipal: the lists become normalised and keep exactly the valid permissions of the set. */
  method NewPrincipal(userId: string, emergencyAdmin: bool, highRiskRole: bool, permissions: PermissionSet)
    returns (p: Principal)
    ensures p.userId == userId && p.emergencyAdmin == emergencyAdmin && p.highRiskRole == highRiskRole
    ensures Normalized(p.held)
    ensures forall g :: g in Grants(p.held) <==> g in Grants(permissions) && ValidGrant(g)
  {
    var system := ValidUnique(permissions.system, SYSTEM_CODES);
    var models := NormalizeScoped(permissions.models, MODEL_CODES);
    var namespaces := NormalizeScoped(permissions.namespaces, NAMESPACE_CODES);
    var held := PermissionSet(system, models, namespaces);
    MembersOfGrants(held);
    MembersOfGrants(permissions);
    forall g: Grant ensures g in Grants(held) <==> g in Grants(permissions) && ValidGrant(g) {
      match g
      case SystemGrant(c) => assert c in system <==> c in permissions.system && c in SYSTEM_CODES;
      case ModelGrant(id, c) =>
        assert (id, c) in ScopedPairs(models) <==> (id, c) in ScopedPairs(permissions.models) && id != "" && c in MODEL_CODES;
      case NamespaceGrant(id, c) =>
        assert (id, c) in ScopedPairs(namespaces) <==> (id, c) in ScopedPairs(permissions.namespaces) && id != "" && c in NAMESPACE_CODES;
    }
    return Principal(userId, emergencyAdmin, highRiskRole, held);
  }
}
