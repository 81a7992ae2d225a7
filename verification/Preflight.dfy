/** The gate before any write (internal/preflight/gate.go), over an abstract catalog. */
module Preflight {
  import opened Wrappers
  import opened Domain
  import Evaluate

  datatype RoleInfo = RoleInfo(superuser: bool, bypassRls: bool)

  datatype TableInfo = TableInfo(owner: string, rlsForced: bool, triggers: seq<string>, rules: seq<string>)

  /** What the catalog answers; `None` is a failed query. */
  datatype Catalog = Catalog(
    role: string -> Option<RoleInfo>,
    memberships: string -> seq<string>,
    table: (string, string) -> Option<TableInfo>,
    hasPrivilege: (string, string, string, string) -> Option<bool>)

  datatype Config = Config(allowWrite: bool, acknowledgeEffects: bool, loginRole: string)

  datatype Requirement = Requirement(role: string, privilege: string)

  function Privilege(op: Operation): Option<string> {
    match op
    case Select => Some("SELECT")
    case Update => Some("UPDATE")
    case Delete => Some("DELETE")
    case Insert => Some("INSERT")
    case Other(_) => None
  }

  function OperationRequirements(ops: seq<Operation>, adversary: string): seq<Requirement>
    decreases ops
  {
    if ops == [] then [] else RequirementOf(ops[0], adversary) + OperationRequirements(ops[1..], adversary)
  }

  function RequirementOf(op: Operation, adversary: string): seq<Requirement> {
    match Privilege(op) case Some(p) => [Requirement(adversary, p)] case None => []
  }

  function Requirements(attack: Attack, owner: string, adversary: string): seq<Requirement> {
    [Requirement(owner, "INSERT"), Requirement(owner, "SELECT")] + OperationRequirements(attack.operations, adversary)
  }

  // ---------- the findings ----------

  function Blocks(code: string, target: string, message: string): (f: Finding)
    ensures f.severity == Blocking
  {
    Finding(code, Blocking, target, message, "")
  }

  function Doubts(code: string, target: string, message: string): (f: Finding)
    ensures f.severity == Unsure
  {
    Finding(code, Unsure, target, message, "")
  }

  /** Every finding of the gate blocks the run or leaves it in doubt. */
  ghost predicate Graded(findings: seq<Finding>) {
    forall f :: f in findings ==> f.severity == Blocking || f.severity == Unsure
  }

  function If(c: bool, f: Finding): (r: seq<Finding>)
    requires f.severity == Blocking || f.severity == Unsure
    ensures Graded(r) && (r == [] <==> !c)
  {
    if c then [f] else []
  }

  function ConfigFindings(p: Profile, config: Config): (r: seq<Finding>)
    ensures Graded(r)
  {
    If(!config.allowWrite, Blocks("allow_write_required", "", "--allow-write is required")) +
    If(!p.requireDisposable, Blocks("disposable_required", "", "profile must declare a disposable target"))
  }

  function LoginFindings(c: Catalog, config: Config): (r: seq<Finding>)
    ensures Graded(r)
  {
    match c.role(config.loginRole)
    case None => [Blocks("login_role_unknown", config.loginRole, "login role cannot be inspected")]
    case Some(role) => If(role.superuser || role.bypassRls,
      Blocks("login_role_bypass", config.loginRole, "login role bypasses row-level security"))
  }

  predicate Assumable(c: Catalog, config: Config, role: string) {
    role in c.memberships(config.loginRole) || role == config.loginRole
  }

  function RoleFindings(c: Catalog, config: Config, identity: Identity): (r: seq<Finding>)
    ensures Graded(r)
  {
    If(!Assumable(c, config, identity.role),
      Blocks("role_not_assumable", identity.role, "login role cannot assume configured test role"))
  }

  function OwnerFindings(t: TableInfo, attack: Attack, identity: Identity): (r: seq<Finding>)
    ensures Graded(r)
  {
    If(t.owner == identity.role && !t.rlsForced,
      Blocks("unforced_owner", attack.table, "configured role owns an unforced RLS table"))
  }

  function EffectFindings(t: TableInfo, attack: Attack, config: Config): (r: seq<Finding>)
    ensures Graded(r)
  {
    If((t.triggers != [] || t.rules != []) && !config.acknowledgeEffects,
      Blocks("external_effect_acknowledgement_required", attack.table,
        "triggers or rules require explicit acknowledgement"))
  }

  function PrivilegeFindings(c: Catalog, schema: string, table: string, rs: seq<Requirement>): (r: seq<Finding>)
    ensures Graded(r)
    decreases rs
  {
    if rs == [] then []
    else
      var r := rs[0];
      If(c.hasPrivilege(r.role, schema, table, r.privilege) != Some(true),
        Doubts("missing_privilege", table, r.role + " lacks " + r.privilege + " privilege"))
      + PrivilegeFindings(c, schema, table, rs[1..])
  }

  function AttackFindings(c: Catalog, p: Profile, config: Config, attack: Attack): (r: seq<Finding>)
    ensures Graded(r)
  {
    match c.table(p.schema, attack.table)
    case None => [Doubts("table_unavailable", attack.table, "table metadata cannot be read")]
    case Some(t) =>
      OwnerFindings(t, attack, p.owner) + OwnerFindings(t, attack, p.adversary) + EffectFindings(t, attack, config)
      + PrivilegeFindings(c, p.schema, attack.table, Requirements(attack, p.owner.role, p.adversary.role))
  }

  function AttacksFindings(c: Catalog, p: Profile, config: Config, attacks: seq<Attack>): (r: seq<Finding>)
    ensures Graded(r)
    decreases attacks
  {
    if attacks == [] then [] else AttackFindings(c, p, config, attacks[0]) + AttacksFindings(c, p, config, attacks[1..])
  }

  function AllFindings(c: Catalog, p: Profile, config: Config): (r: seq<Finding>)
    ensures Graded(r)
  {
    ConfigFindings(p, config) + LoginFindings(c, config) + RoleFindings(c, config, p.owner) + RoleFindings(c,
      config, p.adversary)
    + AttacksFindings(c, p, config, p.attacks)
  }

  /** The severest finding decides. */
  function Severest(findings: seq<Finding>): Outcome {
    if Evaluate.HasSeverity(findings, Blocking) then Blocked
    else if Evaluate.HasSeverity(findings, Unsure) then Inconclusive
    else Pass
  }

  // ---------- the code ----------

  class Gate {
    var findings: seq<Finding>
    var outcome: Outcome

    constructor ()
      ensures findings == [] && outcome == Pass
    {
      findings, outcome := [], Pass;
    }

    /** The closure `add`. */
    method Add(code: string, severity: Severity, target: string, message: string)
      requires outcome == Severest(findings)
      modifies this
      ensures findings == old(findings) + [Finding(code, severity, target, message, "")]
      ensures outcome == Severest(findings)
    {
      findings := findings + [Finding(code, severity, target, message, "")];
      if severity == Blocking {
        outcome := Blocked;
      } else if severity == Unsure && outcome == Pass {
        outcome := Inconclusive;
      }
      SeverestSnoc(old(findings), Finding(code, severity, target, message, ""));
    }

    method AddIf(c: bool, f: Finding)
      requires outcome == Severest(findings) && f.detail == "" && (f.severity == Blocking || f.severity == Unsure)
      modifies this
      ensures findings == old(findings) + If(c, f)
      ensures outcome == Severest(findings)
    {
      if c {
        Add(f.code, f.severity, f.target, f.message);
      } else {
        assert findings == findings + [];
      }
    }
  }

  lemma SeverestSnoc(findings: seq<Finding>, f: Finding)
    ensures forall s ::
      Evaluate.HasSeverity(findings + [f], s) <==> Evaluate.HasSeverity(findings, s) || f.severity == s
  {
    var all := findings + [f];
    forall s ensures Evaluate.HasSeverity(all, s) <==> Evaluate.HasSeverity(findings, s) || f.severity == s {
      if Evaluate.HasSeverity(findings, s) {
        var i :| 0 <= i < |findings| && findings[i].severity == s;
        assert all[i].severity == s;
      }
      if f.severity == s {
        assert all[|findings|].severity == s;
      }
    }
  }

  method RequiredPrivileges(attack: Attack, owner: string, adversary: string) returns (rs: seq<Requirement>)
    ensures rs == Requirements(attack, owner, adversary)
  {
    hide RequirementOf;
    rs := [Requirement(owner, "INSERT"), Requirement(owner, "SELECT")];
    var ops := attack.operations;
    assert ops[0..] == ops;
    for i := 0 to |ops|
      invariant rs + OperationRequirements(ops[i..], adversary) == Requirements(attack, owner, adversary)
    {
      assert OperationRequirements(ops[i..], adversary)
        == RequirementOf(ops[i], adversary) + OperationRequirements(ops[i + 1..], adversary) by {
        assert ops[i..][1..] == ops[i + 1..];
      }
      rs := WithRequirement(rs, ops[i], adversary);
    }
    assert rs + [] == rs;
  }

  method WithRequirement(before: seq<Requirement>, op: Operation, adversary: string) returns (rs: seq<Requirement>)
    ensures rs == before + RequirementOf(op, adversary)
  {
    match op {
      case Select => rs := before + [Requirement(adversary, "SELECT")];
      case Update => rs := before + [Requirement(adversary, "UPDATE")];
      case Delete => rs := before + [Requirement(adversary, "DELETE")];
      case Insert => rs := before + [Requirement(adversary, "INSERT")];
      case Other(_) => rs := before;
    }
  }

  method CheckPrivileges(g: Gate, c: Catalog, schema: string, table: string, rs: seq<Requirement>)
    requires g.outcome == Severest(g.findings)
    modifies g
    ensures g.findings == old(g.findings) + PrivilegeFindings(c, schema, table, rs) && g.outcome == Severest(g.findings)
  {
    hide Severest, Graded;
    assert rs[0..] == rs;
    for i := 0 to |rs|
      invariant g.findings + PrivilegeFindings(c, schema, table, rs[i..])
        == old(g.findings) + PrivilegeFindings(c, schema, table, rs)
      invariant g.outcome == Severest(g.findings)
    {
      assert rs[i..][1..] == rs[i + 1..];
      var r := rs[i];
      g.AddIf(c.hasPrivilege(r.role, schema, table, r.privilege) != Some(true),
        Doubts("missing_privilege", table, r.role + " lacks " + r.privilege + " privilege"));
    }
    assert g.findings + [] == g.findings;
  }

  method CheckAttack(g: Gate, c: Catalog, p: Profile, config: Config, attack: Attack)
    requires g.outcome == Severest(g.findings)
    modifies g
    ensures g.findings == old(g.findings) + AttackFindings(c, p, config, attack) && g.outcome == Severest(g.findings)
  {
    hide Severest, PrivilegeFindings, OwnerFindings, EffectFindings, Graded, Requirements;
    match c.table(p.schema, attack.table) {
      case None =>
        g.Add("table_unavailable", Unsure, attack.table, "table metadata cannot be read");
      case Some(t) =>
        CheckTable(g, t, p, config, attack);
        var rs := RequiredPrivileges(attack, p.owner.role, p.adversary.role);
        CheckPrivileges(g, c, p.schema, attack.table, rs);
    }
  }

  method CheckTable(g: Gate, t: TableInfo, p: Profile, config: Config, attack: Attack)
    requires g.outcome == Severest(g.findings)
    modifies g
    ensures g.findings
      == old(g.findings) + (OwnerFindings(t, attack, p.owner) + OwnerFindings(t, attack, p.adversary)
        + EffectFindings(t, attack, config))
    ensures g.outcome == Severest(g.findings)
  {
    hide Severest, Graded, If;
    CheckOwner(g, t, attack, p.owner);
    CheckOwner(g, t, attack, p.adversary);
    g.AddIf((t.triggers != [] || t.rules != []) && !config.acknowledgeEffects,
      Blocks("external_effect_acknowledgement_required", attack.table,
        "triggers or rules require explicit acknowledgement"));
    Regroup(old(g.findings), OwnerFindings(t, attack, p.owner), OwnerFindings(t, attack, p.adversary),
      EffectFindings(t, attack, config));
  }

  method CheckOwner(g: Gate, t: TableInfo, attack: Attack, identity: Identity)
    requires g.outcome == Severest(g.findings)
    modifies g
    ensures g.findings == old(g.findings) + OwnerFindings(t, attack, identity) && g.outcome == Severest(g.findings)
  {
    hide Severest, Graded, If;
    g.AddIf(t.owner == identity.role && !t.rlsForced,
      Blocks("unforced_owner", attack.table, "configured role owns an unforced RLS table"));
  }

  lemma Regroup(a: seq<Finding>, b: seq<Finding>, c: seq<Finding>, d: seq<Finding>)
    ensures a + b + c + d == a + (b + c + d)
  {
  }

  method CheckRoles(g: Gate, c: Catalog, p: Profile, config: Config)
    requires g.outcome == Severest(g.findings)
    modifies g
    ensures g.findings
      == old(g.findings) + LoginFindings(c, config) + RoleFindings(c, config, p.owner)
        + RoleFindings(c, config, p.adversary)
    ensures g.outcome == Severest(g.findings)
  {
    hide Severest, Graded;
    match c.role(config.loginRole) {
      case None =>
        g.Add("login_role_unknown", Blocking, config.loginRole, "login role cannot be inspected");
      case Some(role) =>
        g.AddIf(role.superuser || role.bypassRls,
          Blocks("login_role_bypass", config.loginRole, "login role bypasses row-level security"));
    }
    g.AddIf(!Assumable(c, config, p.owner.role),
      Blocks("role_not_assumable", p.owner.role, "login role cannot assume configured test role"));
    g.AddIf(!Assumable(c, config, p.adversary.role),
      Blocks("role_not_assumable", p.adversary.role, "login role cannot assume configured test role"));
  }

  method CheckAttacks(g: Gate, c: Catalog, p: Profile, config: Config)
    requires g.outcome == Severest(g.findings)
    modifies g
    ensures g.findings == old(g.findings) + AttacksFindings(c, p, config, p.attacks)
    ensures g.outcome == Severest(g.findings)
  {
    hide Severest, AttackFindings, Graded;
    assert p.attacks[0..] == p.attacks;
    for i := 0 to |p.attacks|
      invariant g.findings + AttacksFindings(c, p, config, p.attacks[i..])
        == old(g.findings) + AttacksFindings(c, p, config, p.attacks)
      invariant g.outcome == Severest(g.findings)
    {
      assert p.attacks[i..][1..] == p.attacks[i + 1..];
      CheckAttack(g, c, p, config, p.attacks[i]);
    }
    assert g.findings + [] == g.findings;
  }

  method Check(c: Catalog, p: Profile, config: Config) returns (findings: seq<Finding>, outcome: Outcome)
    ensures findings == AllFindings(c, p, config) && outcome == Severest(findings)
    ensures forall f :: f in findings <==> Concern(c, p, config, f)
    ensures outcome == Blocked <==> MustBlock(c, p, config)
    ensures outcome == Inconclusive <==> !MustBlock(c, p, config) && InDoubt(c, p)
    ensures outcome == Pass <==> !MustBlock(c, p, config) && !InDoubt(c, p)
  {
    NothingIsSevere();
    hide Severest, AttacksFindings, LoginFindings, RoleFindings, Graded;
    var g := new Gate();
    g.AddIf(!config.allowWrite, Blocks("allow_write_required", "", "--allow-write is required"));
    g.AddIf(!p.requireDisposable, Blocks("disposable_required", "", "profile must declare a disposable target"));
    assert g.findings == ConfigFindings(p, config);
    CheckRoles(g, c, p, config);
    CheckAttacks(g, c, p, config);
    findings, outcome := g.findings, g.outcome;
    FindingsAreConcerns(c, p, config);
    OutcomeIsExact(c, p, config);
    hide Concern, MustBlock, InDoubt;
  }

  lemma NothingIsSevere()
    ensures Severest([]) == Pass
  {
  }

  // ---------- when the gate opens ----------

  predicate Granted(c: Catalog, p: Profile, attack: Attack, role: string, privilege: string) {
    c.hasPrivilege(role, p.schema, attack.table, privilege) == Some(true)
  }

  /** The owner may insert and read, and the adversary may do what it is to try. */
  predicate Privileged(c: Catalog, p: Profile, attack: Attack) {
    && Granted(c, p, attack, p.owner.role, "INSERT") && Granted(c, p, attack, p.owner.role, "SELECT")
    && (Select in attack.operations ==> Granted(c, p, attack, p.adversary.role, "SELECT"))
    && (Update in attack.operations ==> Granted(c, p, attack, p.adversary.role, "UPDATE"))
    && (Delete in attack.operations ==> Granted(c, p, attack, p.adversary.role, "DELETE"))
    && (Insert in attack.operations ==> Granted(c, p, attack, p.adversary.role, "INSERT"))
  }

  /** Which privilege of which role an attack needs. */
  predicate Needs(p: Profile, attack: Attack, role: string, privilege: string) {
    || (role == p.owner.role && (privilege == "INSERT" || privilege == "SELECT"))
    || (role == p.adversary.role && privilege == "SELECT" && Select in attack.operations)
    || (role == p.adversary.role && privilege == "UPDATE" && Update in attack.operations)
    || (role == p.adversary.role && privilege == "DELETE" && Delete in attack.operations)
    || (role == p.adversary.role && privilege == "INSERT" && Insert in attack.operations)
  }

  predicate ClearAttack(c: Catalog, p: Profile, config: Config, attack: Attack) {
    match c.table(p.schema, attack.table)
    case None => false
    case Some(t) =>
      && (t.rlsForced || (t.owner != p.owner.role && t.owner != p.adversary.role))
      && ((t.triggers == [] && t.rules == []) || config.acknowledgeEffects)
      && Privileged(c, p, attack)
  }

  predicate Clear(c: Catalog, p: Profile, config: Config) {
    && config.allowWrite && p.requireDisposable
    && (c.role(config.loginRole).Some? && !c.role(config.loginRole).value.superuser
    && !c.role(config.loginRole).value.bypassRls)
    && Assumable(c, config, p.owner.role) && Assumable(c, config, p.adversary.role)
    && forall a :: a in p.attacks ==> ClearAttack(c, p, config, a)
  }

  lemma {:induction false} PrivilegesClear(c: Catalog, schema: string, table: string, rs: seq<Requirement>)
    ensures PrivilegeFindings(c, schema, table, rs) == []
      <==> forall r :: r in rs ==> c.hasPrivilege(r.role, schema, table, r.privilege) == Some(true)
    decreases rs
  {
    if rs != [] {
      PrivilegesClear(c, schema, table, rs[1..]);
      assert rs == [rs[0]] + rs[1..];
    }
  }

  lemma {:induction false} OperationsNeed(ops: seq<Operation>, adversary: string, r: Requirement)
    ensures r in OperationRequirements(ops, adversary) <==>
      && r.role == adversary
      && ((r.privilege == "SELECT" && Select in ops) || (r.privilege == "UPDATE" && Update in ops)
          || (r.privilege == "DELETE" && Delete in ops) || (r.privilege == "INSERT" && Insert in ops))
    decreases ops
  {
    assert |"SELECT"| == |"UPDATE"| == |"DELETE"| == |"INSERT"|;
    if ops != [] {
      OperationsNeed(ops[1..], adversary, r);
      assert ops == [ops[0]] + ops[1..];
      assert r in RequirementOf(ops[0], adversary) <==>
        && r.role == adversary
        && match ops[0]
           case Select => r.privilege == "SELECT"
           case Update => r.privilege == "UPDATE"
           case Delete => r.privilege == "DELETE"
           case Insert => r.privilege == "INSERT"
           case Other(_) => false;
    }
  }

  /** The list of requirements holds what an attack needs, and nothing else. */
  lemma RequirementsAreNeeds(p: Profile, attack: Attack)
    ensures forall r :: r in Requirements(attack, p.owner.role, p.adversary.role) <==>
        Needs(p, attack, r.role, r.privilege)
  {
    forall r ensures r in Requirements(attack, p.owner.role, p.adversary.role) <==>
      Needs(p, attack, r.role, r.privilege)
    {
      OperationsNeed(attack.operations, p.adversary.role, r);
      hide OperationRequirements;
    }
  }

  lemma PrivilegedIsNeeds(c: Catalog, p: Profile, attack: Attack)
    ensures Privileged(c, p, attack)
      <==> forall role, privilege :: Needs(p, attack, role, privilege) ==> Granted(c, p, attack, role, privilege)
  {
    if forall role, privilege :: Needs(p, attack, role, privilege) ==> Granted(c, p, attack, role, privilege) {
      hide Granted;
      assert Needs(p, attack, p.owner.role, "INSERT") && Needs(p, attack, p.owner.role, "SELECT");
      assert Select in attack.operations ==> Needs(p, attack, p.adversary.role, "SELECT");
      assert Update in attack.operations ==> Needs(p, attack, p.adversary.role, "UPDATE");
      assert Delete in attack.operations ==> Needs(p, attack, p.adversary.role, "DELETE");
      assert Insert in attack.operations ==> Needs(p, attack, p.adversary.role, "INSERT");
    }
  }

  lemma RequirementsClear(c: Catalog, p: Profile, attack: Attack)
    ensures PrivilegeFindings(c, p.schema, attack.table, Requirements(attack, p.owner.role, p.adversary.role)) == []
      <==> Privileged(c, p, attack)
  {
    var rs := Requirements(attack, p.owner.role, p.adversary.role);
    PrivilegesClear(c, p.schema, attack.table, rs);
    RequirementsAreNeeds(p, attack);
    PrivilegedIsNeeds(c, p, attack);
    hide PrivilegeFindings, Requirements, Needs, Privileged, Graded;
    if forall r :: r in rs ==> c.hasPrivilege(r.role, p.schema, attack.table, r.privilege) == Some(true) {
      forall role, privilege | Needs(p, attack, role, privilege) ensures Granted(c, p, attack, role, privilege) {
        assert Requirement(role, privilege) in rs;
      }
    } else {
      var r :| r in rs && c.hasPrivilege(r.role, p.schema, attack.table, r.privilege) != Some(true);
      assert Needs(p, attack, r.role, r.privilege) && !Granted(c, p, attack, r.role, r.privilege);
    }
  }

  lemma AttackClear(c: Catalog, p: Profile, config: Config, attack: Attack)
    ensures AttackFindings(c, p, config, attack) == [] <==> ClearAttack(c, p, config, attack)
  {
    RequirementsClear(c, p, attack);
    hide PrivilegeFindings, Requirements, Graded, Privileged;
  }

  lemma {:induction false} AttacksClear(c: Catalog, p: Profile, config: Config, attacks: seq<Attack>)
    ensures AttacksFindings(c, p, config, attacks) == [] <==> forall a :: a in attacks ==> ClearAttack(c, p, config, a)
    decreases attacks
  {
    hide AttackFindings, ClearAttack, Graded;
    if attacks != [] {
      AttackClear(c, p, config, attacks[0]);
      AttacksClear(c, p, config, attacks[1..]);
      assert attacks == [attacks[0]] + attacks[1..];
    }
  }

  /** The gate passes exactly when every one of its conditions holds; otherwise it blocks or leaves the run in doubt. */
  lemma GateIsExact(c: Catalog, p: Profile, config: Config)
    ensures Severest(AllFindings(c, p, config)) == Pass <==> Clear(c, p, config)
  {
    var fs := AllFindings(c, p, config);
    NothingFoundIffClear(c, p, config);
    assert fs != [] ==> fs[0] in fs;
    hide AllFindings, Clear;
  }

  // ---------- what the findings say ----------

  /** The findings that an attack can give rise to. */
  ghost predicate AttackConcern(c: Catalog, p: Profile, config: Config, attack: Attack, f: Finding) {
    match c.table(p.schema, attack.table)
    case None => f == Finding("table_unavailable", Unsure, attack.table, "table metadata cannot be read", "")
    case Some(t) =>
      || (f == Finding("unforced_owner", Blocking, attack.table, "configured role owns an unforced RLS table", "")
          && !t.rlsForced && (t.owner == p.owner.role || t.owner == p.adversary.role))
      || (f == Finding("external_effect_acknowledgement_required", Blocking, attack.table,
            "triggers or rules require explicit acknowledgement", "")
          && (t.triggers != [] || t.rules != []) && !config.acknowledgeEffects)
      || exists role, privilege ::
           && f == Finding("missing_privilege", Unsure, attack.table, role + " lacks " + privilege + " privilege", "")
           && Needs(p, attack, role, privilege) && !Granted(c, p, attack, role, privilege)
  }

  predicate ConfigConcern(p: Profile, config: Config, f: Finding) {
    || (f == Finding("allow_write_required", Blocking, "", "--allow-write is required", "") && !config.allowWrite)
    || (f == Finding("disposable_required", Blocking, "", "profile must declare a disposable target", "")
        && !p.requireDisposable)
  }

  predicate LoginConcern(c: Catalog, config: Config, f: Finding) {
    match c.role(config.loginRole)
    case None => f == Finding("login_role_unknown", Blocking, config.loginRole, "login role cannot be inspected", "")
    case Some(role) =>
      && f == Finding("login_role_bypass", Blocking, config.loginRole, "login role bypasses row-level security", "")
      && (role.superuser || role.bypassRls)
  }

  predicate RoleConcern(c: Catalog, config: Config, role: string, f: Finding) {
    && f == Finding("role_not_assumable", Blocking, role, "login role cannot assume configured test role", "")
    && role !in c.memberships(config.loginRole) && role != config.loginRole
  }

  /** Everything the gate can have against a run. */
  ghost predicate Concern(c: Catalog, p: Profile, config: Config, f: Finding) {
    || ConfigConcern(p, config, f) || LoginConcern(c, config, f)
    || RoleConcern(c, config, p.owner.role, f) || RoleConcern(c, config, p.adversary.role, f)
    || exists a :: a in p.attacks && AttackConcern(c, p, config, a, f)
  }

  lemma ConfigFound(c: Catalog, p: Profile, config: Config, f: Finding)
    ensures f in ConfigFindings(p, config) <==> ConfigConcern(p, config, f)
    ensures f in LoginFindings(c, config) <==> LoginConcern(c, config, f)
  {
  }

  lemma RoleFound(c: Catalog, config: Config, identity: Identity, f: Finding)
    ensures f in RoleFindings(c, config, identity) <==> RoleConcern(c, config, identity.role, f)
  {
  }

  lemma {:induction false} PrivilegeFound(c: Catalog, p: Profile, attack: Attack, rs: seq<Requirement>, f: Finding)
    ensures f in PrivilegeFindings(c, p.schema, attack.table, rs) <==> exists r ::
        && r in rs && !Granted(c, p, attack, r.role, r.privilege)
        && f == Finding("missing_privilege", Unsure, attack.table, r.role + " lacks " + r.privilege + " privilege", "")
    decreases rs
  {
    if rs != [] {
      PrivilegeFound(c, p, attack, rs[1..], f);
      assert rs == [rs[0]] + rs[1..];
      hide PrivilegeFindings;
    }
  }

  lemma AttackFound(c: Catalog, p: Profile, config: Config, attack: Attack, f: Finding)
    ensures f in AttackFindings(c, p, config, attack) <==> AttackConcern(c, p, config, attack, f)
  {
    var rs := Requirements(attack, p.owner.role, p.adversary.role);
    PrivilegeFound(c, p, attack, rs, f);
    RequirementsAreNeeds(p, attack);
    hide PrivilegeFindings, Requirements, Graded, Needs, Granted;
    if role, privilege :|
      && f == Finding("missing_privilege", Unsure, attack.table, role + " lacks " + privilege + " privilege", "")
      && Needs(p, attack, role, privilege) && !Granted(c, p, attack, role, privilege)
    {
      assert Requirement(role, privilege) in rs;
    }
  }

  lemma {:induction false} AttacksFound(c: Catalog, p: Profile, config: Config, attacks: seq<Attack>, f: Finding)
    ensures f in AttacksFindings(c, p, config, attacks)
      <==> exists a :: a in attacks && AttackConcern(c, p, config, a, f)
    decreases attacks
  {
    hide AttackFindings, AttackConcern, Graded;
    if attacks != [] {
      AttackFound(c, p, config, attacks[0], f);
      AttacksFound(c, p, config, attacks[1..], f);
      assert attacks == [attacks[0]] + attacks[1..];
    }
  }

  /** The gate reports what it has against a run, and nothing else. */
  lemma FindingsAreConcerns(c: Catalog, p: Profile, config: Config)
    ensures forall f :: f in AllFindings(c, p, config) <==> Concern(c, p, config, f)
  {
    forall f ensures f in AllFindings(c, p, config) <==> Concern(c, p, config, f) {
      hide *;
      ConfigFound(c, p, config, f);
      RoleFound(c, config, p.owner, f);
      RoleFound(c, config, p.adversary, f);
      AttacksFound(c, p, config, p.attacks, f);
      FoundSomewhere(c, p, config, f);
      ConcernIs(c, p, config, f);
    }
  }

  lemma FoundSomewhere(c: Catalog, p: Profile, config: Config, f: Finding)
    ensures f in AllFindings(c, p, config) <==>
      || f in ConfigFindings(p, config) || f in LoginFindings(c, config)
      || f in RoleFindings(c, config, p.owner) || f in RoleFindings(c, config, p.adversary)
      || f in AttacksFindings(c, p, config, p.attacks)
  {
    hide ConfigFindings, LoginFindings, RoleFindings, AttacksFindings, Graded;
  }

  lemma ConcernIs(c: Catalog, p: Profile, config: Config, f: Finding)
    ensures Concern(c, p, config, f) <==>
      || ConfigConcern(p, config, f) || LoginConcern(c, config, f)
      || RoleConcern(c, config, p.owner.role, f) || RoleConcern(c, config, p.adversary.role, f)
      || exists a :: a in p.attacks && AttackConcern(c, p, config, a, f)
  {
  }

  /** What blocks a run, whatever the catalog leaves in doubt. */
  predicate MustBlock(c: Catalog, p: Profile, config: Config) {
    || !config.allowWrite || !p.requireDisposable
    || c.role(config.loginRole).None?
    || c.role(config.loginRole).value.superuser || c.role(config.loginRole).value.bypassRls
    || !Assumable(c, config, p.owner.role) || !Assumable(c, config, p.adversary.role)
    || exists a :: a in p.attacks && BlocksAt(c, p, config, a)
  }

  predicate BlocksAt(c: Catalog, p: Profile, config: Config, attack: Attack) {
    match c.table(p.schema, attack.table)
    case None => false
    case Some(t) =>
      || (!t.rlsForced && (t.owner == p.owner.role || t.owner == p.adversary.role))
      || ((t.triggers != [] || t.rules != []) && !config.acknowledgeEffects)
  }

  /** The table of some attack cannot be inspected, or a privilege is missing on it. */
  predicate InDoubt(c: Catalog, p: Profile) {
    exists a :: a in p.attacks && (c.table(p.schema, a.table).None? || !Privileged(c, p, a))
  }

  lemma SeverityFound(findings: seq<Finding>, severity: Severity)
    ensures Evaluate.HasSeverity(findings, severity) <==> exists f :: f in findings && f.severity == severity
  {
    if f :| f in findings && f.severity == severity {
      var i :| 0 <= i < |findings| && findings[i] == f;
    }
  }

  lemma SomeConcernBlocks(c: Catalog, p: Profile, config: Config)
    ensures (exists f :: Concern(c, p, config, f) && f.severity == Blocking) <==> MustBlock(c, p, config)
  {
    hide Needs, Granted;
    if a :| a in p.attacks && BlocksAt(c, p, config, a) {
      var f := AttackBlocks(c, p, config, a);
      assert Concern(c, p, config, f);
    } else if MustBlock(c, p, config) {
      var f := HeadBlocks(c, p, config);
      hide AttackConcern;
      assert Concern(c, p, config, f);
    }
    forall a, f | AttackConcern(c, p, config, a, f) && f.severity == Blocking ensures BlocksAt(c, p, config, a) {
    }
    hide AttackConcern;
  }

  lemma AttackBlocks(c: Catalog, p: Profile, config: Config, attack: Attack) returns (f: Finding)
    requires BlocksAt(c, p, config, attack)
    ensures AttackConcern(c, p, config, attack, f) && f.severity == Blocking
  {
    var t := c.table(p.schema, attack.table).value;
    f := if !t.rlsForced && (t.owner == p.owner.role || t.owner == p.adversary.role)
      then Finding("unforced_owner", Blocking, attack.table, "configured role owns an unforced RLS table", "")
      else Finding("external_effect_acknowledgement_required", Blocking, attack.table,
        "triggers or rules require explicit acknowledgement", "");
  }

  lemma HeadBlocks(c: Catalog, p: Profile, config: Config) returns (f: Finding)
    requires MustBlock(c, p, config) && !exists a :: a in p.attacks && BlocksAt(c, p, config, a)
    ensures f.severity == Blocking
    ensures ConfigConcern(p, config, f) || LoginConcern(c, config, f) || RoleConcern(c, config, p.owner.role, f)
      || RoleConcern(c, config, p.adversary.role, f)
  {
    if !config.allowWrite {
      f := Finding("allow_write_required", Blocking, "", "--allow-write is required", "");
    } else if !p.requireDisposable {
      f := Finding("disposable_required", Blocking, "", "profile must declare a disposable target", "");
    } else if c.role(config.loginRole).None? {
      f := Finding("login_role_unknown", Blocking, config.loginRole, "login role cannot be inspected", "");
    } else if c.role(config.loginRole).value.superuser || c.role(config.loginRole).value.bypassRls {
      f := Finding("login_role_bypass", Blocking, config.loginRole, "login role bypasses row-level security", "");
    } else {
      var role := if Assumable(c, config, p.owner.role) then p.adversary.role else p.owner.role;
      f := Finding("role_not_assumable", Blocking, role, "login role cannot assume configured test role", "");
    }
  }

  /** The gate blocks exactly when a condition that blocks holds; short of that it leaves the run in doubt exactly when
      a table cannot be inspected or a privilege is missing; and else it passes. */
  lemma OutcomeIsExact(c: Catalog, p: Profile, config: Config)
    ensures var o := Severest(AllFindings(c, p, config));
      && (o == Blocked <==> MustBlock(c, p, config))
      && (o == Inconclusive <==> !MustBlock(c, p, config) && InDoubt(c, p))
      && (o == Pass <==> !MustBlock(c, p, config) && !InDoubt(c, p))
  {
    var fs := AllFindings(c, p, config);
    FindingsAreConcerns(c, p, config);
    SeverityFound(fs, Blocking);
    SeverityFound(fs, Unsure);
    SomeConcernBlocks(c, p, config);
    GateIsExact(c, p, config);
    ClearIsNeither(c, p, config);
    hide AllFindings, Concern, MustBlock, InDoubt, Clear, Evaluate.HasSeverity;
  }

  lemma ClearIsNeither(c: Catalog, p: Profile, config: Config)
    ensures Clear(c, p, config) <==> !MustBlock(c, p, config) && !InDoubt(c, p)
  {
    hide Privileged;
  }

  lemma PassFindsNothing(c: Catalog, p: Profile, config: Config)
    requires !MustBlock(c, p, config) && !InDoubt(c, p)
    ensures AllFindings(c, p, config) == []
  {
    hide AllFindings, Clear, MustBlock, InDoubt;
    ClearIsNeither(c, p, config);
    NothingFoundIffClear(c, p, config);
  }

  lemma NothingFoundIffClear(c: Catalog, p: Profile, config: Config)
    ensures AllFindings(c, p, config) == [] <==> Clear(c, p, config)
  {
    AttacksClear(c, p, config, p.attacks);
    hide AttacksFindings, ClearAttack, Graded;
  }
}
