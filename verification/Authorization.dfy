/** Role-based authorization: the compiled policy, and what it decides in terms of the policy as written. */
module Authorization {
  import opened Wrappers
  import opened Sorting
  import opened Text

  type Uid = nat

  datatype Role = Role(name: string, operations: seq<string>, scope: string)

  datatype Binding = Binding(uid: Uid, roles: seq<string>)

  datatype Policy = Policy(version: string, default: string, agentRoles: seq<string>, roles: seq<Role>,
      bindings: seq<Binding>)

  /** The operations of the interface, and which of them are safe for agents. */
  type Operations = map<string, bool>

  const VERSION := "1"

  // ---- What a policy means ----

  function NameOf(r: Role): string { Trimmed(r.name) }

  predicate ForAll(r: Role) { Trimmed(r.scope) == "all" }

  predicate Names(listed: string, op: string) {
    Trimmed(listed) == "*" || Trimmed(listed) == op
  }

  /** The operations that a list grants. */
  function Granted(ops: Operations, listed: seq<string>): set<string> {
    set op | op in ops && exists l :: l in listed && Names(l, op)
  }

  ghost predicate Bound(p: Policy, uid: Uid, role: string) {
    exists b :: b in p.bindings && b.uid == uid && role in b.roles
  }

  /** A role that the user has and that lists the operation. */
  ghost predicate Grants(ops: Operations, p: Policy, uid: Uid, op: string, r: Role) {
    r in p.roles && Bound(p, uid, NameOf(r)) && op in Granted(ops, r.operations)
  }

  ghost predicate Allowed(ops: Operations, p: Policy, uid: Uid, op: string) {
    exists r :: Grants(ops, p, uid, op, r)
  }

  ghost predicate AllowedOnAll(ops: Operations, p: Policy, uid: Uid, op: string) {
    exists r :: Grants(ops, p, uid, op, r) && ForAll(r)
  }

  // ---- Which policies are accepted ----

  /** Every operation is known and listed once; one that is named after a star is a repetition. */
  predicate ListOk(ops: Operations, listed: seq<string>) {
    listed != [] && forall i :: 0 <= i < |listed| && Trimmed(listed[i]) != "*" ==>
      Trimmed(listed[i]) in ops && Trimmed(listed[i]) !in Granted(ops, listed[..i])
  }

  predicate RoleOk(ops: Operations, r: Role) {
    && NameOf(r) != ""
    && (Trimmed(r.scope) == "" || Trimmed(r.scope) == "owned" || Trimmed(r.scope) == "all")
    && ListOk(ops, r.operations)
  }

  predicate RolesOk(ops: Operations, roles: seq<Role>) {
    (forall r :: r in roles ==> RoleOk(ops, r)) && DistinctKeys(NameOf, roles)
  }

  predicate Known(roles: seq<Role>, name: string) {
    exists r :: r in roles && NameOf(r) == name
  }

  predicate BindingOk(roles: seq<Role>, b: Binding) {
    b.roles != [] && Distinct(b.roles) && forall n :: n in b.roles ==> Known(roles, n)
  }

  function UidOf(b: Binding): Uid { b.uid }

  predicate BindingsOk(roles: seq<Role>, bindings: seq<Binding>) {
    (forall b :: b in bindings ==> BindingOk(roles, b)) && DistinctKeys(UidOf, bindings)
  }

  /** A role for agents reaches only their own resources and only what is safe for them. */
  predicate SafeForAgents(ops: Operations, r: Role) {
    !ForAll(r) && forall op :: op in Granted(ops, r.operations) ==> ops[op]
  }

  predicate AgentRoleOk(ops: Operations, roles: seq<Role>, name: string) {
    Known(roles, name) && forall r :: r in roles && NameOf(r) == name ==> SafeForAgents(ops, r)
  }

  predicate Acceptable(ops: Operations, p: Policy) {
    && p.version == VERSION && (p.default == "" || p.default == "deny")
    && RolesOk(ops, p.roles) && BindingsOk(p.roles, p.bindings)
    && forall n :: n in p.agentRoles ==> AgentRoleOk(ops, p.roles, n)
  }

  /** A binding gives the user a role, by its trimmed name, that lists the operation or a star. */
  predicate GivenBy(p: Policy, uid: Uid, op: string, r: Role, b: Binding, l: string) {
    && r in p.roles && b in p.bindings && l in r.operations
    && b.uid == uid && Trimmed(r.name) in b.roles && (Trimmed(l) == op || Trimmed(l) == "*")
  }

  /** Who may do what: a known operation that some binding gives, on everything if by a role for all. */
  lemma AllowedExactly(ops: Operations, p: Policy, uid: Uid, op: string)
    ensures Allowed(ops, p, uid, op) <==> op in ops && exists r, b, l :: GivenBy(p, uid, op, r, b, l)
    ensures AllowedOnAll(ops, p, uid, op) <==>
              op in ops && exists r, b, l :: GivenBy(p, uid, op, r, b, l) && Trimmed(r.scope) == "all"
  {
    hide Trimmed, GivenBy, Grants;
    forall r ensures Grants(ops, p, uid, op, r) <==> op in ops && exists b, l :: GivenBy(p, uid, op, r, b, l) {
      GrantsExactly(ops, p, uid, op, r);
    }
    if r :| Grants(ops, p, uid, op, r) {
      var b, l :| GivenBy(p, uid, op, r, b, l);
      assert GivenBy(p, uid, op, r, b, l);
    }
    if r :| Grants(ops, p, uid, op, r) && ForAll(r) {
      var b, l :| GivenBy(p, uid, op, r, b, l);
      assert GivenBy(p, uid, op, r, b, l) && Trimmed(r.scope) == "all";
    }
    if r, b, l :| op in ops && GivenBy(p, uid, op, r, b, l) { assert Grants(ops, p, uid, op, r); }
    if r, b, l :| op in ops && GivenBy(p, uid, op, r, b, l) && Trimmed(r.scope) == "all" {
      assert Grants(ops, p, uid, op, r) && ForAll(r);
    }
  }

  lemma GrantsExactly(ops: Operations, p: Policy, uid: Uid, op: string, r: Role)
    ensures Grants(ops, p, uid, op, r) <==> op in ops && exists b, l :: GivenBy(p, uid, op, r, b, l)
  {
    hide Trimmed;
    if Grants(ops, p, uid, op, r) {
      var b :| b in p.bindings && b.uid == uid && NameOf(r) in b.roles;
      var l :| l in r.operations && Names(l, op);
      assert GivenBy(p, uid, op, r, b, l);
    }
  }

  /** Each listed operation is a star, or known and not covered by what is listed before it. */
  predicate ListedWell(ops: Operations, listed: seq<string>) {
    listed != [] && forall i :: 0 <= i < |listed| ==>
      Trimmed(listed[i]) == "*"
      || (Trimmed(listed[i]) in ops
          && forall j :: 0 <= j < i ==> Trimmed(listed[j]) != "*" && Trimmed(listed[j]) != Trimmed(listed[i]))
  }

  lemma ListOkExactly(ops: Operations, listed: seq<string>)
    ensures ListOk(ops, listed) <==> ListedWell(ops, listed)
  {
    hide Trimmed;
    forall i | 0 <= i < |listed| && Trimmed(listed[i]) in ops
      ensures Trimmed(listed[i]) in Granted(ops, listed[..i]) <==>
                exists j :: 0 <= j < i && (Trimmed(listed[j]) == "*" || Trimmed(listed[j]) == Trimmed(listed[i]))
    {
      var op, before := Trimmed(listed[i]), listed[..i];
      if op in Granted(ops, before) {
        var l :| l in before && Names(l, op);
        var j :| 0 <= j < i && before[j] == l;
        assert listed[j] == l;
      }
      if j :| 0 <= j < i && (Trimmed(listed[j]) == "*" || Trimmed(listed[j]) == op) {
        assert before[j] in before && Names(before[j], op);
      }
    }
  }

  /** A role is fit for agents if it is not for all resources, and what it lists, a star or by name, is safe. */
  lemma SafeForAgentsExactly(ops: Operations, r: Role)
    ensures SafeForAgents(ops, r) <==>
              && Trimmed(r.scope) != "all"
              && (forall l, op :: l in r.operations && op in ops && (Trimmed(l) == op || Trimmed(l) == "*") ==> ops[op])
  {
    hide Trimmed;
    forall l, op | l in r.operations && op in ops && (Trimmed(l) == op || Trimmed(l) == "*")
      ensures op in Granted(ops, r.operations)
    {
      assert Names(l, op);
    }
  }

  /** Which policies are accepted, in full. */
  lemma AcceptableExactly(ops: Operations, p: Policy)
    ensures Acceptable(ops, p) <==>
              && p.version == "1" && (p.default == "" || p.default == "deny")
              && (forall r :: r in p.roles ==>
                    && !AllSpace(r.name) && ListedWell(ops, r.operations)
                    && (Trimmed(r.scope) == "" || Trimmed(r.scope) == "owned" || Trimmed(r.scope) == "all"))
              && (forall i, j :: 0 <= i < j < |p.roles| ==> Trimmed(p.roles[i].name) != Trimmed(p.roles[j].name))
              && (forall b :: b in p.bindings ==>
                    && b.roles != [] && (forall i, j :: 0 <= i < j < |b.roles| ==> b.roles[i] != b.roles[j])
                    && forall n :: n in b.roles ==> exists r :: r in p.roles && Trimmed(r.name) == n)
              && (forall i, j :: 0 <= i < j < |p.bindings| ==> p.bindings[i].uid != p.bindings[j].uid)
              && (forall n :: n in p.agentRoles ==>
                    && (exists r :: r in p.roles && Trimmed(r.name) == n)
                    && forall r :: r in p.roles && Trimmed(r.name) == n ==> SafeForAgents(ops, r))
  {
    hide Trimmed, ListedWell, ListOk, SafeForAgents, AllSpace;
    forall r | r in p.roles
      ensures RoleOk(ops, r) <==>
                && !AllSpace(r.name) && ListedWell(ops, r.operations)
                && (Trimmed(r.scope) == "" || Trimmed(r.scope) == "owned" || Trimmed(r.scope) == "all")
    {
      ListOkExactly(ops, r.operations);
      BlankExactly(r.name);
    }
    RoleNamesDistinct(p.roles);
    UidsDistinct(p.bindings);
  }

  lemma RoleNamesDistinct(roles: seq<Role>)
    ensures DistinctKeys(NameOf, roles) <==>
              forall i, j :: 0 <= i < j < |roles| ==> Trimmed(roles[i].name) != Trimmed(roles[j].name)
  {
    hide Trimmed;
    forall i, j | 0 <= i < j < |roles|
      ensures NameOf(roles[i]) != NameOf(roles[j]) <==> Trimmed(roles[i].name) != Trimmed(roles[j].name)
    {
    }
  }

  lemma UidsDistinct(bindings: seq<Binding>)
    ensures DistinctKeys(UidOf, bindings) <==>
              forall i, j :: 0 <= i < j < |bindings| ==> bindings[i].uid != bindings[j].uid
  {
    forall i, j | 0 <= i < j < |bindings|
      ensures UidOf(bindings[i]) != UidOf(bindings[j]) <==> bindings[i].uid != bindings[j].uid
    {
    }
  }

  // ---- Compilation ----

  datatype Authorizer = Authorizer(
    roleOps: map<string, set<string>>, roleScopes: map<string, string>, bindings: map<Uid, seq<string>>,
        agentRoles: set<string>)

  function ScopeOf(r: Role): string {
    if Trimmed(r.scope) == "" then "owned" else Trimmed(r.scope)
  }

  /** The role tables hold each role under its name. */
  ghost predicate RolesCompiled(ops: Operations, roles: seq<Role>, roleOps: map<string, set<string>>,
      scopes: map<string, string>) {
    && (forall n :: n in roleOps <==> Known(roles, n))
    && scopes.Keys == roleOps.Keys
    && (forall r :: r in roles ==> NameOf(r) in roleOps && roleOps[NameOf(r)] == Granted(ops, r.operations)
                                   && scopes[NameOf(r)] == ScopeOf(r))
  }

  ghost predicate BindingsCompiled(bindings: seq<Binding>, table: map<Uid, seq<string>>) {
    && (forall u :: u in table <==> exists b :: b in bindings && b.uid == u)
    && (forall b :: b in bindings ==> b.uid in table && table[b.uid] == SortBy(Less, b.roles))
  }

  ghost predicate Compiled(ops: Operations, p: Policy, a: Authorizer) {
    && RolesCompiled(ops, p.roles, a.roleOps, a.roleScopes) && BindingsCompiled(p.bindings, a.bindings)
    && a.agentRoles == set n | n in p.agentRoles
  }

  lemma GrantedOneMore(ops: Operations, listed: seq<string>, i: nat)
    requires i < |listed|
    ensures Granted(ops, listed[..i + 1]) ==
              if Trimmed(listed[i]) == "*" then ops.Keys
              else Granted(ops, listed[..i]) + (if Trimmed(listed[i]) in ops then {Trimmed(listed[i])} else {})
  {
    hide Trimmed;
    var longer := listed[..i + 1];
    assert longer == listed[..i] + [listed[i]];
    forall op | op in ops ensures op in Granted(ops, longer)
        <==> op in Granted(ops, listed[..i]) || Names(listed[i], op) {
      if op in Granted(ops, listed[..i]) {
        var l :| l in listed[..i] && Names(l, op);
        assert l in longer;
      }
      assert listed[i] in longer;
    }
  }

  /** The set of one role's operations, filled entry by entry. */
  method CompileList(ops: Operations, listed: seq<string>) returns (granted: Option<set<string>>)
    ensures granted.Some? <==> ListOk(ops, listed)
    ensures granted.Some? ==> granted.value == Granted(ops, listed)
  {
    hide Trimmed, Granted;
    if |listed| == 0 { return None; }
    var ids: set<string> := {};
    assert Granted(ops, listed[..0]) == {} by { NothingGranted(ops, listed); }
    var i := 0;
    while i < |listed|
      invariant 0 <= i <= |listed|
      invariant ids == Granted(ops, listed[..i])
      invariant forall k :: 0 <= k < i && Trimmed(listed[k]) != "*" ==>
                  Trimmed(listed[k]) in ops && Trimmed(listed[k]) !in Granted(ops, listed[..k])
    {
      GrantedOneMore(ops, listed, i);
      var op := Trimmed(listed[i]);
      if op == "*" {
        ids := ids + ops.Keys;
        GrantedAreKnown(ops, listed[..i]);
      } else {
        if op !in ops || op in ids { return None; }
        ids := ids + {op};
      }
      i := i + 1;
    }
    assert listed[..i] == listed;
    granted := Some(ids);
  }

  lemma NothingGranted(ops: Operations, listed: seq<string>)
    ensures Granted(ops, listed[..0]) == {}
  {
  }

  lemma GrantedAreKnown(ops: Operations, listed: seq<string>)
    ensures Granted(ops, listed) <= ops.Keys
  {
  }

  lemma RolesOkOneMore(ops: Operations, roles: seq<Role>, i: nat)
    requires i < |roles|
    ensures RolesOk(ops, roles[..i + 1]) <==>
              RolesOk(ops, roles[..i]) && RoleOk(ops, roles[i]) && !Known(roles[..i], NameOf(roles[i]))
  {
    hide RoleOk, NameOf;
    var longer := roles[..i + 1];
    assert longer == roles[..i] + [roles[i]];
    assert forall r :: r in longer <==> r in roles[..i] || r == roles[i];
    DistinctOneMore(NameOf, roles, i);
    KnownAt(roles, i, NameOf(roles[i]));
  }

  lemma RolesCompiledOneMore(ops: Operations, roles: seq<Role>, i: nat, roleOps: map<string, set<string>>,
      scopes: map<string, string>)
    requires i < |roles| && RolesCompiled(ops, roles[..i], roleOps, scopes) && !Known(roles[..i], NameOf(roles[i]))
    ensures RolesCompiled(ops, roles[..i + 1], roleOps[NameOf(roles[i]) := Granted(ops, roles[i].operations)],
                          scopes[NameOf(roles[i]) := ScopeOf(roles[i])])
  {
    hide Granted, NameOf, ScopeOf;
    var longer := roles[..i + 1];
    assert longer == roles[..i] + [roles[i]];
    forall n ensures Known(longer, n) <==> Known(roles[..i], n) || n == NameOf(roles[i]) {
      if r :| r in roles[..i] && NameOf(r) == n { assert r in longer; }
      assert roles[i] in longer;
    }
    forall r | r in roles[..i] ensures NameOf(r) != NameOf(roles[i]) {
      assert Known(roles[..i], NameOf(r));
    }
  }

  lemma KnownAt(roles: seq<Role>, i: nat, name: string)
    requires i <= |roles|
    ensures Known(roles[..i], name) <==> exists k :: 0 <= k < i && NameOf(roles[k]) == name
  {
    hide NameOf;
    if k :| 0 <= k < i && NameOf(roles[k]) == name { assert roles[..i][k] in roles[..i]; }
  }

  lemma RolesPrefix(ops: Operations, roles: seq<Role>, i: nat)
    requires i <= |roles|
    ensures RolesOk(ops, roles) ==> RolesOk(ops, roles[..i])
  {
    hide RoleOk, NameOf;
    if RolesOk(ops, roles) {
      forall r | r in roles[..i] ensures RoleOk(ops, r) { assert r in roles; }
      forall j, k | 0 <= j < k < i ensures NameOf(roles[..i][j]) != NameOf(roles[..i][k]) {
        assert NameOf(roles[j]) != NameOf(roles[k]);
      }
    }
  }

  /** One role: its scope filled in, its operations as a set. */
  method CompileRole(ops: Operations, role: Role) returns (ids: Option<set<string>>, scope: string)
    ensures ids.Some? <==> RoleOk(ops, role)
    ensures ids.Some? ==> ids.value == Granted(ops, role.operations) && scope == ScopeOf(role)
  {
    hide ListOk, Granted, Trimmed;
    scope := Trimmed(role.scope);
    if NameOf(role) == "" { return None, scope; }
    if scope == "" { scope := "owned"; }
    if scope != "owned" && scope != "all" { return None, scope; }
    ids := CompileList(ops, role.operations);
  }

  lemma NoRoles(ops: Operations, roles: seq<Role>)
    ensures RolesOk(ops, roles[..0]) && RolesCompiled(ops, roles[..0], map[], map[])
  {
  }

  /** The role tables, filled role by role. */
  method CompileRoles(ops: Operations, roles: seq<Role>)
      returns (r: Option<(map<string, set<string>>, map<string, string>)>)
    ensures r.Some? <==> RolesOk(ops, roles)
    ensures r.Some? ==> RolesCompiled(ops, roles, r.value.0, r.value.1)
  {
    hide RoleOk, RolesOk, RolesCompiled, Granted, NameOf, ScopeOf, Known;
    var roleOps: map<string, set<string>> := map[];
    var scopes: map<string, string> := map[];
    NoRoles(ops, roles);
    var i := 0;
    while i < |roles|
      invariant 0 <= i <= |roles|
      invariant RolesOk(ops, roles[..i]) && RolesCompiled(ops, roles[..i], roleOps, scopes)
    {
      RolesOkOneMore(ops, roles, i);
      RoleNames(ops, roles[..i], roleOps, scopes);
      var ids, scope := CompileRole(ops, roles[i]);
      if NameOf(roles[i]) in roleOps || ids.None? {
        RolesPrefix(ops, roles, i + 1);
        return None;
      }
      RolesCompiledOneMore(ops, roles, i, roleOps, scopes);
      scopes := scopes[NameOf(roles[i]) := scope];
      roleOps := roleOps[NameOf(roles[i]) := ids.value];
      i := i + 1;
    }
    assert roles[..i] == roles;
    r := Some((roleOps, scopes));
  }

  /** The roles of one binding: each known, none twice. */
  method CheckBinding(roles: seq<Role>, roleOps: map<string, set<string>>, b: Binding) returns (ok: bool)
    requires forall n :: n in roleOps <==> Known(roles, n)
    ensures ok <==> BindingOk(roles, b)
  {
    hide Known;
    if |b.roles| == 0 { return false; }
    var seen: set<string> := {};
    var i := 0;
    while i < |b.roles|
      invariant 0 <= i <= |b.roles|
      invariant seen == set k | 0 <= k < i :: b.roles[k]
      invariant forall k :: 0 <= k < i ==> Known(roles, b.roles[k])
      invariant forall j, k :: 0 <= j < k < i ==> b.roles[j] != b.roles[k]
    {
      if b.roles[i] !in roleOps {
        assert b.roles[i] in b.roles;
        return false;
      }
      if b.roles[i] in seen { return false; }
      seen := seen + {b.roles[i]};
      i := i + 1;
    }
    ok := true;
  }

  lemma BindingsOneMore(roles: seq<Role>, bindings: seq<Binding>, i: nat, table: map<Uid, seq<string>>)
    requires i < |bindings| && BindingsCompiled(bindings[..i], table)
    ensures BindingsOk(roles, bindings[..i + 1]) <==>
              BindingsOk(roles, bindings[..i]) && BindingOk(roles, bindings[i]) && bindings[i].uid !in table
    ensures bindings[i].uid !in table ==>
              BindingsCompiled(bindings[..i + 1], table[bindings[i].uid := SortBy(Less, bindings[i].roles)])
  {
    hide BindingOk;
    var longer := bindings[..i + 1];
    assert longer == bindings[..i] + [bindings[i]];
    assert forall b :: b in longer <==> b in bindings[..i] || b == bindings[i];
    DistinctOneMore(UidOf, bindings, i);
    if k :| 0 <= k < i && bindings[k].uid == bindings[i].uid { assert bindings[..i][k] in bindings[..i]; }
  }

  lemma BindingsPrefix(roles: seq<Role>, bindings: seq<Binding>, i: nat)
    requires i <= |bindings|
    ensures BindingsOk(roles, bindings) ==> BindingsOk(roles, bindings[..i])
  {
    hide BindingOk;
    if BindingsOk(roles, bindings) {
      forall b | b in bindings[..i] ensures BindingOk(roles, b) { assert b in bindings; }
      forall j, k | 0 <= j < k < i ensures UidOf(bindings[..i][j]) != UidOf(bindings[..i][k]) {
        assert UidOf(bindings[j]) != UidOf(bindings[k]);
      }
    }
  }

  method CompileBindings(roles: seq<Role>, roleOps: map<string, set<string>>, bindings: seq<Binding>)
      returns (r: Option<map<Uid, seq<string>>>)
    requires forall n :: n in roleOps <==> Known(roles, n)
    ensures r.Some? <==> BindingsOk(roles, bindings)
    ensures r.Some? ==> BindingsCompiled(bindings, r.value)
  {
    hide Known, BindingOk;
    var table: map<Uid, seq<string>> := map[];
    var i := 0;
    while i < |bindings|
      invariant 0 <= i <= |bindings|
      invariant BindingsOk(roles, bindings[..i]) && BindingsCompiled(bindings[..i], table)
    {
      BindingsOneMore(roles, bindings, i, table);
      if bindings[i].uid in table {
        BindingsPrefix(roles, bindings, i + 1);
        return None;
      }
      var ok := CheckBinding(roles, roleOps, bindings[i]);
      if !ok {
        BindingsPrefix(roles, bindings, i + 1);
        return None;
      }
      table := table[bindings[i].uid := SortBy(Less, bindings[i].roles)];
      i := i + 1;
    }
    assert bindings[..i] == bindings;
    r := Some(table);
  }

  /** A role's table entries tell whether it is fit for agents. */
  lemma AgentRoleTables(ops: Operations, roles: seq<Role>, roleOps: map<string, set<string>>,
      scopes: map<string, string>, name: string)
    requires RolesOk(ops, roles) && RolesCompiled(ops, roles, roleOps, scopes)
    ensures AgentRoleOk(ops, roles, name) <==>
              name in roleOps && scopes[name] == "owned" && roleOps[name] <= ops.Keys && forall op :: op in roleOps[name] ==> ops[op]
  {
    hide Trimmed, ListOk, Granted;
    if Known(roles, name) {
      var r :| r in roles && NameOf(r) == name;
      assert RoleOk(ops, r);
      GrantedAreKnown(ops, r.operations);
      assert scopes[name] == ScopeOf(r) && roleOps[name] == Granted(ops, r.operations);
      forall q | q in roles && NameOf(q) == name
          ensures Granted(ops, q.operations) == Granted(ops, r.operations) && ScopeOf(q) == ScopeOf(r) {
      }
    }
  }

  method Compile(ops: Operations, p: Policy) returns (r: Option<Authorizer>)
    ensures r.Some? <==> Acceptable(ops, p)
    ensures r.Some? ==> Compiled(ops, p, r.value)
  {
    hide RolesOk, BindingsOk, AgentRoleOk, RolesCompiled, BindingsCompiled;
    if p.version != VERSION { return None; }
    if p.default != "" && p.default != "deny" { return None; }
    var tables := CompileRoles(ops, p.roles);
    if tables.None? { return None; }
    var roleOps, scopes := tables.value.0, tables.value.1;
    RoleNames(ops, p.roles, roleOps, scopes);
    var bindings := CompileBindings(p.roles, roleOps, p.bindings);
    if bindings.None? { return None; }
    var agentRoles: set<string> := {};
    var i := 0;
    while i < |p.agentRoles|
      invariant 0 <= i <= |p.agentRoles|
      invariant agentRoles == set k | 0 <= k < i :: p.agentRoles[k]
      invariant forall k :: 0 <= k < i ==> AgentRoleOk(ops, p.roles, p.agentRoles[k])
    {
      var name := p.agentRoles[i];
      AgentRoleTables(ops, p.roles, roleOps, scopes, name);
      if name !in roleOps || scopes[name] != "owned" || exists op :: op in roleOps[name] && (op !in ops || !ops[op]) {
        assert name in p.agentRoles;
        return None;
      }
      agentRoles := agentRoles + {name};
      i := i + 1;
    }
    r := Some(Authorizer(roleOps, scopes, bindings.value, agentRoles));
  }

  lemma RoleNames(ops: Operations, roles: seq<Role>, roleOps: map<string, set<string>>, scopes: map<string, string>)
    requires RolesCompiled(ops, roles, roleOps, scopes)
    ensures (forall n :: n in roleOps <==> Known(roles, n)) && scopes.Keys == roleOps.Keys
  {
  }

  // ---- Decisions ----

  datatype Reason = UnknownOperation | NoBinding | DefaultDeny | RoleGrant

  datatype Decision = Decision(allowed: bool, reason: Reason, roles: seq<string>, all: bool)

  /** The tables are looked up role by role; one granting role with scope all is enough for all. */
  method Decide(ops: Operations, a: Authorizer, uid: Uid, op: string) returns (d: Decision)
    ensures op !in ops ==> d == Decision(false, UnknownOperation, [], false)
    ensures op in ops && (uid !in a.bindings || a.bindings[uid] == []) ==> d == Decision(false, NoBinding, [], false)
    ensures op in ops && uid in a.bindings && a.bindings[uid] != [] ==>
              d.roles == a.bindings[uid] && (d.reason.RoleGrant? || d.reason.DefaultDeny?)
    ensures d.allowed <==> op in ops && uid in a.bindings && exists n :: n in a.bindings[uid] && TableGrants(a, n, op)
    ensures d.all <==> op in ops && uid in a.bindings && exists n :: n in a.bindings[uid] && TableGrants(a, n, op) && TableAll(a, n)
    ensures d.allowed <==> d.reason.RoleGrant?
  {
    if op !in ops { return Decision(false, UnknownOperation, [], false); }
    var roles := if uid in a.bindings then a.bindings[uid] else [];
    if |roles| == 0 { return Decision(false, NoBinding, [], false); }
    var granted, all := false, false;
    var i := 0;
    while i < |roles|
      invariant 0 <= i <= |roles|
      invariant granted <==> exists k :: 0 <= k < i && TableGrants(a, roles[k], op)
      invariant all <==> exists k :: 0 <= k < i && TableGrants(a, roles[k], op) && TableAll(a, roles[k])
    {
      if TableGrants(a, roles[i], op) {
        granted := true;
        if TableAll(a, roles[i]) { all := true; }
      }
      i := i + 1;
    }
    d := if granted then Decision(true, RoleGrant, roles, all) else Decision(false, DefaultDeny, roles, false);
  }

  predicate TableGrants(a: Authorizer, name: string, op: string) {
    name in a.roleOps && op in a.roleOps[name]
  }

  predicate TableAll(a: Authorizer, name: string) {
    name in a.roleScopes && a.roleScopes[name] == "all"
  }

  /** What the compiled tables grant is what the policy says. */
  lemma TablesMeanPolicy(ops: Operations, p: Policy, a: Authorizer, uid: Uid, op: string)
    requires Acceptable(ops, p) && Compiled(ops, p, a)
    ensures (op in ops && uid in a.bindings && exists n :: n in a.bindings[uid] && TableGrants(a, n, op))
        <==> Allowed(ops, p, uid, op)
    ensures (op in ops && uid in a.bindings && exists n :: n in a.bindings[uid] && TableGrants(a, n, op) && TableAll(a, n))
              <==> AllowedOnAll(ops, p, uid, op)
  {
    hide Acceptable, Trimmed, Granted;
    forall n ensures uid in a.bindings && n in a.bindings[uid] <==> Bound(p, uid, n) {
      BoundInTable(p, a.bindings, uid, n);
    }
    forall r | r in p.roles ensures TableGrants(a, NameOf(r), op) <==> op in Granted(ops, r.operations) {
    }
    forall r | r in p.roles ensures TableAll(a, NameOf(r)) <==> ForAll(r) {
      assert a.roleScopes[NameOf(r)] == ScopeOf(r);
    }
    forall n | TableGrants(a, n, op) ensures Known(p.roles, n) && op in ops {
      var r :| r in p.roles && NameOf(r) == n;
      GrantedAreKnown(ops, r.operations);
    }
    if r :| Grants(ops, p, uid, op, r) {
      assert TableGrants(a, NameOf(r), op);
    }
    if r :| Grants(ops, p, uid, op, r) && ForAll(r) {
      assert TableGrants(a, NameOf(r), op) && TableAll(a, NameOf(r));
    }
    if n :| Bound(p, uid, n) && TableGrants(a, n, op) {
      var r :| r in p.roles && NameOf(r) == n;
      assert Grants(ops, p, uid, op, r);
    }
    if n :| Bound(p, uid, n) && TableGrants(a, n, op) && TableAll(a, n) {
      var r :| r in p.roles && NameOf(r) == n;
      assert Grants(ops, p, uid, op, r) && ForAll(r);
    }
  }

  lemma BoundInTable(p: Policy, table: map<Uid, seq<string>>, uid: Uid, name: string)
    requires BindingsCompiled(p.bindings, table)
    ensures uid in table && name in table[uid] <==> Bound(p, uid, name)
  {
    forall b | b in p.bindings && b.uid == uid ensures name in table[uid] <==> name in b.roles {
      SortKeeps(Less, b.roles);
      Rearranged(b.roles, SortBy(Less, b.roles));
    }
  }

  /** A user with roles for agents only may do only what is safe for agents, on its own resources. */
  lemma AgentsStaySafe(ops: Operations, p: Policy, uid: Uid, op: string)
    requires Acceptable(ops, p) && forall n :: Bound(p, uid, n) ==> n in p.agentRoles
    ensures Allowed(ops, p, uid, op) ==> op in ops && ops[op]
    ensures !AllowedOnAll(ops, p, uid, op)
  {
    hide Trimmed, RolesOk, BindingsOk;
    forall r | Grants(ops, p, uid, op, r) ensures SafeForAgents(ops, r) && op in ops && ops[op] {
      assert AgentRoleOk(ops, p.roles, NameOf(r));
      GrantedAreKnown(ops, r.operations);
    }
  }
}
