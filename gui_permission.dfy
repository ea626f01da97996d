/** Who may use the broadcast feature (`gui`), how that policy is read from
    the process environment, and the message shown to a caller who is
    refused. */
module GuiPermission {
  import opened Wrappers
  import opened JsText

  /** The three environment settings the policy is read from; `None` is an
      unset variable. */
  datatype Env = Env(
    allowedRoleIds: Option<string>,      // ALLOWED_ROLE_IDS, comma separated
    allowedRoleId: Option<string>,       // ALLOWED_ROLE_ID, a single id
    requireAdminForGui: Option<string>)  // REQUIRE_ADMIN_FOR_GUI

  /** The policy, fixed at start-up. `allowed` keeps the configured order. */
  datatype Policy = Policy(adminOnly: bool, allowed: seq<string>)

  /** The caller: the Administrator permission bit and the held role ids. */
  datatype Member = Member(isAdmin: bool, roles: set<string>)

  /** JavaScript truthiness of an environment value: set and not empty. */
  predicate Truthy(v: Option<string>)
  {
    v.Some? && v.value != ""
  }

  /** The allow-list: ALLOWED_ROLE_IDS split on commas (no trimming), else
      the single ALLOWED_ROLE_ID, else nothing. */
  function AllowedRoleIds(env: Env): (r: seq<string>)
    ensures r == [] <==> !Truthy(env.allowedRoleIds) && !Truthy(env.allowedRoleId)
    ensures Truthy(env.allowedRoleIds) ==>
      Join(r, ",") == env.allowedRoleIds.value
      && Split(Join(r, ","), ',') == r
      && forall i :: 0 <= i < |r| ==> ',' !in r[i]
    ensures !Truthy(env.allowedRoleIds) && Truthy(env.allowedRoleId) ==>
      r == [env.allowedRoleId.value]
  {
    if Truthy(env.allowedRoleIds) then
      var ids := Split(env.allowedRoleIds.value, ',');
      JoinSplit(env.allowedRoleIds.value, ',');
      ids
    else if Truthy(env.allowedRoleId) then [env.allowedRoleId.value]
    else []
  }

  /** `allowed.some(id => roles.has(id))`. */
  function AnyAllowedHeld(allowed: seq<string>, roles: set<string>): (r: bool)
    ensures r <==> exists i :: 0 <= i < |allowed| && allowed[i] in roles
  {
    if allowed == [] then false
    else if allowed[0] in roles then true
    else
      var r := AnyAllowedHeld(allowed[1..], roles);
      assert forall i :: 1 <= i < |allowed| ==> allowed[i] == allowed[1..][i - 1];
      r
  }

  /** `hasGuiPermission`. */
  function HasGuiPermission(p: Policy, m: Member): (r: bool)
    // admin-only: exactly the administrators, whatever roles they hold
    ensures p.adminOnly ==> (r <==> m.isAdmin)
    // otherwise administrators always pass
    ensures !p.adminOnly && m.isAdmin ==> r
    // otherwise a non-administrator passes iff holding a listed role
    ensures !p.adminOnly && !m.isAdmin && p.allowed != [] ==>
      (r <==> exists id :: id in p.allowed && id in m.roles)
    // and with no list configured nobody else passes (fail-closed)
    ensures !p.adminOnly && p.allowed == [] ==> (r <==> m.isAdmin)
    // in all: administrators, or holders of a listed role unless admin-only
    ensures r <==> m.isAdmin || (!p.adminOnly && exists id :: id in p.allowed && id in m.roles)
  {
    if p.adminOnly then m.isAdmin
    else if m.isAdmin then true
    else if |p.allowed| > 0 then
      AnyAllowedHeld(p.allowed, m.roles)
    else false
  }

  /** The policy read at start-up: REQUIRE_ADMIN_FOR_GUI is on only when it is
      exactly "true", and the allow-list is `AllowedRoleIds`. Who gets access
      then follows from the environment alone. */
  function LoadPolicy(env: Env): (r: Policy)
    ensures r.allowed == AllowedRoleIds(env)
    ensures forall m :: HasGuiPermission(r, m) <==>
      m.isAdmin
      || (env.requireAdminForGui != Some("true") && exists id :: id in AllowedRoleIds(env) && id in m.roles)
  {
    Policy(env.requireAdminForGui == Some("true"), AllowedRoleIds(env))
  }

  /** Holding more roles never takes access away. */
  lemma PermissionMonotoneInRoles(p: Policy, m: Member, extra: set<string>)
    requires HasGuiPermission(p, m)
    ensures HasGuiPermission(p, Member(m.isAdmin, m.roles + extra))
  {
  }

  /** The order and repetition of the configured ids do not matter. */
  lemma PermissionIgnoresListOrder(p: Policy, q: Policy, m: Member)
    requires p.adminOnly == q.adminOnly
    requires forall id :: id in p.allowed <==> id in q.allowed
    ensures HasGuiPermission(p, m) == HasGuiPermission(q, m)
  {
  }

  /** Without any role setting the feature is open to administrators only,
      whatever REQUIRE_ADMIN_FOR_GUI says. */
  lemma UnconfiguredIsAdminOnly(env: Env, m: Member)
    requires !Truthy(env.allowedRoleIds) && !Truthy(env.allowedRoleId)
    ensures HasGuiPermission(LoadPolicy(env), m) == m.isAdmin
  {
  }

  /** Any value of REQUIRE_ADMIN_FOR_GUI other than exactly "true" ("TRUE",
      "1", "yes") leaves the role list in force: non-administrators holding a
      listed role get access too. A corollary of `LoadPolicy`'s contract,
      stated for the settings that are not exactly "true". */
  lemma OnlyExactTrueLocksToAdmins(env: Env, m: Member)
    requires env.requireAdminForGui != Some("true")
    ensures HasGuiPermission(LoadPolicy(env), m) <==>
      m.isAdmin || exists id :: id in AllowedRoleIds(env) && id in m.roles
  {
  }

  /** Where the refusal is shown: the button that opens the form says
      "tính năng này" (this feature), the two `gui` commands "lệnh này"
      (this command). */
  datatype Surface = OpenModalButton | PrefixCommand | SlashCommand

  function Subject(s: Surface): string
  {
    if s == OpenModalButton then "tính năng này" else "lệnh này"
  }

  function GenericDenial(s: Surface): string
  {
    "❌ Bạn không có quyền sử dụng " + Subject(s) + "!"
  }

  function AdminDenial(s: Surface): string
  {
    "❌ Bạn cần quyền **Admin** để sử dụng " + Subject(s) + "!"
  }

  const RoleListPrefix: string := "❌ Bạn cần có một trong các role sau: **"
  const RoleListSuffix: string := "**"

  /** `roles.cache.get(id)?.name || \`Role(${id})\``: a missing role, or one
      whose name is empty, is shown by its id. */
  function RoleLabel(id: string, names: map<string, string>): (r: string)
    ensures r != ""
    ensures id in names && names[id] != "" ==> r == names[id]
    ensures !(id in names && names[id] != "") ==> r == "Role(" + id + ")"
  {
    if id in names && names[id] != "" then names[id] else "Role(" + id + ")"
  }

  /** `ids.map(...)`: one label per configured id, in order. */
  function RoleLabels(ids: seq<string>, names: map<string, string>): (r: seq<string>)
    ensures |r| == |ids|
    ensures forall i :: 0 <= i < |ids| ==> r[i] == RoleLabel(ids[i], names)
  {
    if ids == [] then [] else [RoleLabel(ids[0], names)] + RoleLabels(ids[1..], names)
  }

  /** `.filter(name => name)`: drops the empty strings and keeps every
      other one as often as it occurs. */
  function DropEmpty(xs: seq<string>): (r: seq<string>)
    ensures forall i :: 0 <= i < |r| ==> r[i] != ""
    ensures forall x :: x != "" ==> multiset(r)[x] == multiset(xs)[x]
  {
    if xs == [] then []
    else
      assert xs == [xs[0]] + xs[1..];
      if xs[0] == "" then DropEmpty(xs[1..])
      else [xs[0]] + DropEmpty(xs[1..])
  }

  /** The filter never removes a label, so nothing goes missing or shifts. */
  lemma {:induction false} DropEmptyKeepsLabels(xs: seq<string>)
    requires forall i :: 0 <= i < |xs| ==> xs[i] != ""
    ensures DropEmpty(xs) == xs
  {
    if xs != [] {
      DropEmptyKeepsLabels(xs[1..]);
      assert [xs[0]] + xs[1..] == xs;
    }
  }

  /** The refusal text, built the same way on the three surfaces. */
  function DenialMessage(s: Surface, p: Policy, names: map<string, string>): (r: string)
    ensures p.adminOnly ==> r == AdminDenial(s)
    ensures !p.adminOnly && p.allowed == [] ==> r == GenericDenial(s)
  {
    if p.adminOnly then AdminDenial(s)
    else if |p.allowed| > 0 then
      RoleListPrefix + Join(DropEmpty(RoleLabels(p.allowed, names)), ", ") + RoleListSuffix
    else GenericDenial(s)
  }

  /** With a role list, the refusal lists every configured role, in order,
      resolved or as `Role(id)`, separated by ", ", and never fails on an
      unknown id. */
  lemma DenialListsRoles(s: Surface, p: Policy, names: map<string, string>)
    requires !p.adminOnly && p.allowed != []
    ensures DenialMessage(s, p, names)
      == RoleListPrefix + Join(RoleLabels(p.allowed, names), ", ") + RoleListSuffix
    ensures forall i :: 0 <= i < |p.allowed| ==>
      Includes(DenialMessage(s, p, names), RoleLabel(p.allowed[i], names))
  {
    var labels := RoleLabels(p.allowed, names);
    DropEmptyKeepsLabels(labels);
    forall i | 0 <= i < |p.allowed|
      ensures Includes(DenialMessage(s, p, names), RoleLabel(p.allowed[i], names))
    {
      JoinIncludesEach(labels, ", ", i);
      IncludesInContext(RoleListPrefix, Join(labels, ", "), RoleListSuffix, labels[i]);
    }
  }

  /** What a `gui` command or the open-form button answers: `None` lets the
      caller through, `Some(text)` refuses with that text. */
  function GuiGate(s: Surface, p: Policy, m: Member, names: map<string, string>): (r: Option<string>)
    ensures r.None? <==> HasGuiPermission(p, m)
    ensures r.Some? ==> r.value == DenialMessage(s, p, names) && r.value != ""
  {
    if HasGuiPermission(p, m) then None else Some(DenialMessage(s, p, names))
  }

  /** A caller holding none of the listed roles is refused with a message
      naming them (here: R1 resolved to "VIP", the caller holding R2). */
  lemma RefusalNamesTheRole()
    ensures GuiGate(SlashCommand, Policy(false, ["R1"]), Member(false, {"R2"}), map["R1" := "VIP"])
      == Some(RoleListPrefix + "VIP" + RoleListSuffix)
  {
    DenialListsRoles(SlashCommand, Policy(false, ["R1"]), map["R1" := "VIP"]);
  }
}
