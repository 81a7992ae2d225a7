/** The gate's findings one by one: which there are, in which order, and each how often. */
module GateReport {
  import opened Domain
  import opened Preflight

  /** Where a finding comes from: the part of the gate, 0 for the run as a whole and i + 1 for attack i, and the place
      in that part. */
  datatype Key = Key(part: nat, place: nat)

  predicate Before(a: Key, b: Key) {
    a.part < b.part || (a.part == b.part && a.place < b.place)
  }

  ghost predicate Ascending(keys: seq<Key>) {
    forall i, j :: 0 <= i < j < |keys| ==> Before(keys[i], keys[j])
  }

  predicate OwnerAt(c: Catalog, p: Profile, i: nat, role: string)
    requires i < |p.attacks|
  {
    var t := c.table(p.schema, p.attacks[i].table);
    t.Some? && t.value.owner == role && !t.value.rlsForced
  }

  predicate LacksAt(c: Catalog, p: Profile, i: nat, role: string, privilege: string)
    requires i < |p.attacks|
  {
    c.table(p.schema, p.attacks[i].table).Some? && !Granted(c, p, p.attacks[i], role, privilege)
  }

  /** The privilege an operation needs. */
  function NameOf(op: Operation): string {
    match op
    case Select => "SELECT"
    case Update => "UPDATE"
    case Delete => "DELETE"
    case Insert => "INSERT"
    case Other(_) => ""
  }

  /** What the gate looks at in each place, and what speaks against a run there. */
  predicate Against(c: Catalog, p: Profile, config: Config, k: Key) {
    if k.part == 0 then
      match k.place
      case 0 => !config.allowWrite
      case 1 => !p.requireDisposable
      case 2 => var r := c.role(config.loginRole); r.None? || r.value.superuser || r.value.bypassRls
      case 3 => p.owner.role !in c.memberships(config.loginRole) && p.owner.role != config.loginRole
      case 4 => p.adversary.role !in c.memberships(config.loginRole) && p.adversary.role != config.loginRole
      case _ => false
    else
      k.part <= |p.attacks| && AgainstAttack(c, p, config, k.part - 1, k.place)
  }

  predicate AgainstAttack(c: Catalog, p: Profile, config: Config, i: nat, place: nat)
    requires i < |p.attacks|
  {
    var a := p.attacks[i];
    var t := c.table(p.schema, a.table);
    match place
    case 0 => t.None?
    case 1 => OwnerAt(c, p, i, p.owner.role)
    case 2 => OwnerAt(c, p, i, p.adversary.role)
    case 3 => t.Some? && (t.value.triggers != [] || t.value.rules != []) && !config.acknowledgeEffects
    case 4 => LacksAt(c, p, i, p.owner.role, "INSERT")
    case 5 => LacksAt(c, p, i, p.owner.role, "SELECT")
    case _ =>
      && place < 6 + |a.operations| && !a.operations[place - 6].Other?
      && LacksAt(c, p, i, p.adversary.role, NameOf(a.operations[place - 6]))
  }

  /** The finding of a place. */
  function Told(c: Catalog, p: Profile, config: Config, k: Key): Finding {
    if k.part == 0 then
      match k.place
      case 0 => Finding("allow_write_required", Blocking, "", "--allow-write is required", "")
      case 1 => Finding("disposable_required", Blocking, "", "profile must declare a disposable target", "")
      case 2 =>
        if c.role(config.loginRole).None? then
          Finding("login_role_unknown", Blocking, config.loginRole, "login role cannot be inspected", "")
        else Finding("login_role_bypass", Blocking, config.loginRole, "login role bypasses row-level security", "")
      case 3 => NotAssumable(p.owner.role)
      case _ => NotAssumable(p.adversary.role)
    else if k.part <= |p.attacks| then ToldOfAttack(p, p.attacks[k.part - 1], k.place)
    else NotAssumable("")
  }

  function NotAssumable(role: string): Finding {
    Finding("role_not_assumable", Blocking, role, "login role cannot assume configured test role", "")
  }

  function ToldOfAttack(p: Profile, a: Attack, place: nat): Finding {
    match place
    case 0 => Finding("table_unavailable", Unsure, a.table, "table metadata cannot be read", "")
    case 1 => Unforced(a)
    case 2 => Unforced(a)
    case 3 => Finding("external_effect_acknowledgement_required", Blocking, a.table,
      "triggers or rules require explicit acknowledgement", "")
    case 4 => Lacks(a, p.owner.role, "INSERT")
    case 5 => Lacks(a, p.owner.role, "SELECT")
    case _ => Lacks(a, p.adversary.role, if place - 6 < |a.operations| then NameOf(a.operations[place - 6]) else "")
  }

  function Unforced(a: Attack): Finding {
    Finding("unforced_owner", Blocking, a.table, "configured role owns an unforced RLS table", "")
  }

  function Lacks(a: Attack, role: string, privilege: string): Finding {
    Finding("missing_privilege", Unsure, a.table, role + " lacks " + privilege + " privilege", "")
  }

  /** The findings are those of the given places, in their order. */
  ghost predicate Tells(c: Catalog, p: Profile, config: Config, keys: seq<Key>, findings: seq<Finding>) {
    |findings| == |keys| && forall i :: 0 <= i < |keys| ==> findings[i] == Told(c, p, config, keys[i])
  }

  lemma TellsMore(c: Catalog, p: Profile, config: Config, a: seq<Key>, x: seq<Finding>, b: seq<Key>, y: seq<Finding>)
    requires Tells(c, p, config, a, x) && Tells(c, p, config, b, y)
    ensures Tells(c, p, config, a + b, x + y)
  {
    hide Told;
  }

  /** The places from `low` up to `high` of a part that speak against the run, in order. */
  function Places(c: Catalog, p: Profile, config: Config, part: nat, low: nat, high: nat): (r: seq<Key>)
    requires low <= high
    ensures forall k :: k in r <==> k.part == part && low <= k.place < high && Against(c, p, config, k)
    decreases high - low
  {
    if low == high then []
    else
      (if Against(c, p, config, Key(part, low)) then [Key(part, low)] else [])
      + Places(c, p, config, part, low + 1, high)
  }

  lemma {:induction false} PlacesAscend(c: Catalog, p: Profile, config: Config, part: nat, low: nat, high: nat)
    requires low <= high
    ensures Ascending(Places(c, p, config, part, low, high))
    decreases high - low
  {
    hide Against;
    if low < high {
      PlacesAscend(c, p, config, part, low + 1, high);
      var rest := Places(c, p, config, part, low + 1, high);
      assert forall i :: 0 <= i < |rest| ==> rest[i] in rest;
    }
  }

  /** What one place tells. */
  function At(c: Catalog, p: Profile, config: Config, part: nat, place: nat): seq<Finding> {
    if Against(c, p, config, Key(part, place)) then [Told(c, p, config, Key(part, place))] else []
  }

  lemma OnePlace(c: Catalog, p: Profile, config: Config, part: nat, place: nat)
    ensures Tells(c, p, config, Places(c, p, config, part, place, place + 1), At(c, p, config, part, place))
  {
    hide Told, Against;
    assert Places(c, p, config, part, place + 1, place + 1) == [];
  }

  lemma {:induction false} PlacesSplit(c: Catalog, p: Profile, config: Config, part: nat, low: nat, mid: nat, high: nat)
    requires low <= mid <= high
    ensures Places(c, p, config, part, low, high)
      == Places(c, p, config, part, low, mid) + Places(c, p, config, part, mid, high)
    decreases mid - low
  {
    hide Against;
    if low < mid {
      PlacesSplit(c, p, config, part, low + 1, mid, high);
    }
  }

  /** Findings of a further place follow. */
  lemma NextPlace(c: Catalog, p: Profile, config: Config, part: nat, low: nat, place: nat, before: seq<Finding>)
    requires low <= place && Tells(c, p, config, Places(c, p, config, part, low, place), before)
    ensures Tells(c, p, config, Places(c, p, config, part, low, place + 1), before + At(c, p, config, part, place))
  {
    hide Told, Against, Places, Tells, At;
    OnePlace(c, p, config, part, place);
    PlacesSplit(c, p, config, part, low, place, place + 1);
    TellsMore(c, p, config, Places(c, p, config, part, low, place), before,
      Places(c, p, config, part, place, place + 1), At(c, p, config, part, place));
  }

  lemma NoPlace(c: Catalog, p: Profile, config: Config, part: nat, place: nat)
    ensures Tells(c, p, config, Places(c, p, config, part, place, place), [])
  {
  }

  // ---------- the run as a whole ----------

  lemma HeaderTells(c: Catalog, p: Profile, config: Config)
    ensures Tells(c, p, config, Places(c, p, config, 0, 0, 5),
      ConfigFindings(p, config) + LoginFindings(c, config) + RoleFindings(c, config, p.owner)
      + RoleFindings(c, config, p.adversary))
  {
    hide *;
    HeaderParts(c, p, config);
    var x0, x1, x2 := At(c, p, config, 0, 0), At(c, p, config, 0, 1), At(c, p, config, 0, 2);
    NoPlace(c, p, config, 0, 0);
    NextPlace(c, p, config, 0, 0, 0, []);
    assert [] + x0 == x0;
    NextPlace(c, p, config, 0, 0, 1, x0);
    NextPlace(c, p, config, 0, 0, 2, x0 + x1);
    NextPlace(c, p, config, 0, 0, 3, x0 + x1 + x2);
    NextPlace(c, p, config, 0, 0, 4, x0 + x1 + x2 + At(c, p, config, 0, 3));
  }

  lemma HeaderParts(c: Catalog, p: Profile, config: Config)
    ensures ConfigFindings(p, config) == At(c, p, config, 0, 0) + At(c, p, config, 0, 1)
    ensures LoginFindings(c, config) == At(c, p, config, 0, 2)
    ensures RoleFindings(c, config, p.owner) == At(c, p, config, 0, 3)
    ensures RoleFindings(c, config, p.adversary) == At(c, p, config, 0, 4)
  {
  }

  // ---------- one attack ----------

  lemma {:induction false} PrivilegesSplit(c: Catalog, schema: string, table: string, a: seq<Requirement>,
        b: seq<Requirement>)
    ensures PrivilegeFindings(c, schema, table, a + b)
      == PrivilegeFindings(c, schema, table, a) + PrivilegeFindings(c, schema, table, b)
    decreases a
  {
    hide If;
    if a == [] {
      assert a + b == b;
    } else {
      assert (a + b)[1..] == a[1..] + b;
      PrivilegesSplit(c, schema, table, a[1..], b);
    }
  }

  lemma OnePrivilege(c: Catalog, p: Profile, a: Attack, role: string, privilege: string)
    ensures PrivilegeFindings(c, p.schema, a.table, [Requirement(role, privilege)])
      == If(!Granted(c, p, a, role, privilege), Lacks(a, role, privilege))
  {
    var rs := [Requirement(role, privilege)];
    assert rs[1..] == [];
    assert PrivilegeFindings(c, p.schema, a.table, []) == [];
  }

  /** What the requirements of one operation find. */
  lemma OperationFinds(c: Catalog, p: Profile, config: Config, i: nat, n: nat)
    requires i < |p.attacks| && n < |p.attacks[i].operations|
    requires c.table(p.schema, p.attacks[i].table).Some?
    ensures var a := p.attacks[i];
      PrivilegeFindings(c, p.schema, a.table, RequirementOf(a.operations[n], p.adversary.role))
        == At(c, p, config, i + 1, 6 + n)
  {
    var a, op := p.attacks[i], p.attacks[i].operations[n];
    OnePrivilege(c, p, a, p.adversary.role, NameOf(op));
    hide Granted;
    if op.Other? {
      assert PrivilegeFindings(c, p.schema, a.table, []) == [];
    } else {
      assert RequirementOf(op, p.adversary.role) == [Requirement(p.adversary.role, NameOf(op))];
    }
    hide PrivilegeFindings;
  }

  lemma RequirementsFrom(ops: seq<Operation>, n: nat, adversary: string)
    requires n < |ops|
    ensures OperationRequirements(ops[n..], adversary)
      == RequirementOf(ops[n], adversary) + OperationRequirements(ops[n + 1..], adversary)
  {
    hide RequirementOf;
    assert ops[n..][0] == ops[n] && ops[n..][1..] == ops[n + 1..];
  }

  lemma {:induction false} OperationsTell(c: Catalog, p: Profile, config: Config, i: nat, n: nat)
    requires i < |p.attacks| && n <= |p.attacks[i].operations|
    requires c.table(p.schema, p.attacks[i].table).Some?
    ensures var a := p.attacks[i];
      Tells(c, p, config, Places(c, p, config, i + 1, 6 + n, 6 + |a.operations|),
        PrivilegeFindings(c, p.schema, a.table, OperationRequirements(a.operations[n..], p.adversary.role)))
    decreases |p.attacks[i].operations| - n
  {
    var a := p.attacks[i];
    var part, high := i + 1, 6 + |a.operations|;
    if n == |a.operations| {
      NoPlace(c, p, config, part, high);
    } else {
      hide *;
      var first := RequirementOf(a.operations[n], p.adversary.role);
      var rest := OperationRequirements(a.operations[n + 1..], p.adversary.role);
      RequirementsFrom(a.operations, n, p.adversary.role);
      PrivilegesSplit(c, p.schema, a.table, first, rest);
      OperationFinds(c, p, config, i, n);
      OperationsTell(c, p, config, i, n + 1);
      PlaceInFront(c, p, config, part, 6 + n, high, PrivilegeFindings(c, p.schema, a.table, rest));
    }
  }

  /** Findings of a place before others. */
  lemma PlaceInFront(c: Catalog, p: Profile, config: Config, part: nat, place: nat, high: nat, rest: seq<Finding>)
    requires place < high && Tells(c, p, config, Places(c, p, config, part, place + 1, high), rest)
    ensures Tells(c, p, config, Places(c, p, config, part, place, high), At(c, p, config, part, place) + rest)
  {
    hide *;
    OnePlace(c, p, config, part, place);
    PlacesSplit(c, p, config, part, place, place + 1, high);
    TellsMore(c, p, config, Places(c, p, config, part, place, place + 1), At(c, p, config, part, place),
      Places(c, p, config, part, place + 1, high), rest);
  }

  lemma OwnerParts(c: Catalog, p: Profile, config: Config, i: nat)
    requires i < |p.attacks| && c.table(p.schema, p.attacks[i].table).Some?
    ensures var a, t, part := p.attacks[i], c.table(p.schema, p.attacks[i].table).value, i + 1;
      && At(c, p, config, part, 0) == []
      && OwnerFindings(t, a, p.owner) == At(c, p, config, part, 1)
      && OwnerFindings(t, a, p.adversary) == At(c, p, config, part, 2)
  {
    hide Granted;
  }

  lemma EffectPart(c: Catalog, p: Profile, config: Config, i: nat)
    requires i < |p.attacks| && c.table(p.schema, p.attacks[i].table).Some?
    ensures EffectFindings(c.table(p.schema, p.attacks[i].table).value, p.attacks[i], config)
      == At(c, p, config, i + 1, 3)
  {
    hide Granted;
  }

  lemma InsertPart(c: Catalog, p: Profile, config: Config, i: nat)
    requires i < |p.attacks| && c.table(p.schema, p.attacks[i].table).Some?
    ensures PrivilegeFindings(c, p.schema, p.attacks[i].table, [Requirement(p.owner.role, "INSERT")])
      == At(c, p, config, i + 1, 4)
  {
    OnePrivilege(c, p, p.attacks[i], p.owner.role, "INSERT");
    hide PrivilegeFindings, Granted, Lacks;
  }

  lemma SelectPart(c: Catalog, p: Profile, config: Config, i: nat)
    requires i < |p.attacks| && c.table(p.schema, p.attacks[i].table).Some?
    ensures PrivilegeFindings(c, p.schema, p.attacks[i].table, [Requirement(p.owner.role, "SELECT")])
      == At(c, p, config, i + 1, 5)
  {
    OnePrivilege(c, p, p.attacks[i], p.owner.role, "SELECT");
    hide PrivilegeFindings, Granted, Lacks;
  }

  /** The findings of a table that can be inspected, without those of the adversary's privileges. */
  function TableFindings(c: Catalog, p: Profile, config: Config, a: Attack, t: TableInfo): seq<Finding> {
    OwnerFindings(t, a, p.owner) + OwnerFindings(t, a, p.adversary) + EffectFindings(t, a, config)
    + PrivilegeFindings(c, p.schema, a.table, [Requirement(p.owner.role, "INSERT")])
    + PrivilegeFindings(c, p.schema, a.table, [Requirement(p.owner.role, "SELECT")])
  }

  lemma TableTells(c: Catalog, p: Profile, config: Config, i: nat)
    requires i < |p.attacks| && c.table(p.schema, p.attacks[i].table).Some?
    ensures var a := p.attacks[i];
      Tells(c, p, config, Places(c, p, config, i + 1, 0, 6),
        TableFindings(c, p, config, a, c.table(p.schema, a.table).value))
  {
    hide *;
    var part := i + 1;
    OwnerParts(c, p, config, i);
    EffectPart(c, p, config, i);
    InsertPart(c, p, config, i);
    SelectPart(c, p, config, i);
    var x1, x2, x3 := At(c, p, config, part, 1), At(c, p, config, part, 2), At(c, p, config, part, 3);
    var x4, x5 := At(c, p, config, part, 4), At(c, p, config, part, 5);
    NoPlace(c, p, config, part, 0);
    NextPlace(c, p, config, part, 0, 0, []);
    NextPlace(c, p, config, part, 0, 1, [] + []);
    assert [] + [] + x1 == x1;
    NextPlace(c, p, config, part, 0, 2, x1);
    NextPlace(c, p, config, part, 0, 3, x1 + x2);
    NextPlace(c, p, config, part, 0, 4, x1 + x2 + x3);
    NextPlace(c, p, config, part, 0, 5, x1 + x2 + x3 + x4);
    TableFindingsAre(c, p, config, p.attacks[i], c.table(p.schema, p.attacks[i].table).value, x1, x2, x3, x4, x5);
  }

  lemma TableFindingsAre(c: Catalog, p: Profile, config: Config, a: Attack, t: TableInfo, x1: seq<Finding>,
        x2: seq<Finding>, x3: seq<Finding>, x4: seq<Finding>, x5: seq<Finding>)
    requires OwnerFindings(t, a, p.owner) == x1 && OwnerFindings(t, a, p.adversary) == x2
    requires EffectFindings(t, a, config) == x3
    requires PrivilegeFindings(c, p.schema, a.table, [Requirement(p.owner.role, "INSERT")]) == x4
    requires PrivilegeFindings(c, p.schema, a.table, [Requirement(p.owner.role, "SELECT")]) == x5
    ensures TableFindings(c, p, config, a, t) == x1 + x2 + x3 + x4 + x5
  {
    hide OwnerFindings, EffectFindings, PrivilegeFindings;
  }

  function PlacesOf(c: Catalog, p: Profile, config: Config, i: nat): seq<Key>
    requires i < |p.attacks|
  {
    Places(c, p, config, i + 1, 0, 6 + |p.attacks[i].operations|)
  }

  lemma FoundTells(c: Catalog, p: Profile, config: Config, i: nat)
    requires i < |p.attacks| && c.table(p.schema, p.attacks[i].table).Some?
    ensures Tells(c, p, config, PlacesOf(c, p, config, i), AttackFindings(c, p, config, p.attacks[i]))
  {
    var a, part := p.attacks[i], i + 1;
    var t, rs := c.table(p.schema, a.table).value, OperationRequirements(a.operations, p.adversary.role);
    var high := 6 + |a.operations|;
    assert PlacesOf(c, p, config, i) == Places(c, p, config, part, 0, high);
    assert a.operations[0..] == a.operations;
    hide *;
    TableTells(c, p, config, i);
    OperationsTell(c, p, config, i, 0);
    PlacesSplit(c, p, config, part, 0, 6, high);
    FindingsAre(c, p, config, a);
    TellsMore(c, p, config, Places(c, p, config, part, 0, 6), TableFindings(c, p, config, a, t),
      Places(c, p, config, part, 6, high), PrivilegeFindings(c, p.schema, a.table, rs));
  }

  lemma AttackTells(c: Catalog, p: Profile, config: Config, i: nat)
    requires i < |p.attacks|
    ensures Tells(c, p, config, PlacesOf(c, p, config, i), AttackFindings(c, p, config, p.attacks[i]))
  {
    hide *;
    if c.table(p.schema, p.attacks[i].table).None? {
      MissingTells(c, p, config, i);
    } else {
      FoundTells(c, p, config, i);
    }
  }

  lemma PrivilegesTogether(c: Catalog, p: Profile, a: Attack, rs: seq<Requirement>)
    ensures PrivilegeFindings(c, p.schema, a.table,
        [Requirement(p.owner.role, "INSERT"), Requirement(p.owner.role, "SELECT")] + rs)
      == PrivilegeFindings(c, p.schema, a.table, [Requirement(p.owner.role, "INSERT")])
        + PrivilegeFindings(c, p.schema, a.table, [Requirement(p.owner.role, "SELECT")])
        + PrivilegeFindings(c, p.schema, a.table, rs)
  {
    hide PrivilegeFindings;
    var x, y := [Requirement(p.owner.role, "INSERT")], [Requirement(p.owner.role, "SELECT")];
    assert [Requirement(p.owner.role, "INSERT"), Requirement(p.owner.role, "SELECT")] == x + y;
    PrivilegesSplit(c, p.schema, a.table, x + y, rs);
    PrivilegesSplit(c, p.schema, a.table, x, y);
  }

  lemma FindingsAre(c: Catalog, p: Profile, config: Config, a: Attack)
    requires c.table(p.schema, a.table).Some?
    ensures AttackFindings(c, p, config, a) == TableFindings(c, p, config, a, c.table(p.schema, a.table).value)
      + PrivilegeFindings(c, p.schema, a.table, OperationRequirements(a.operations, p.adversary.role))
  {
    PrivilegesTogether(c, p, a, OperationRequirements(a.operations, p.adversary.role));
    hide OwnerFindings, EffectFindings, PrivilegeFindings, OperationRequirements;
  }

  /** Of a table that cannot be inspected the gate says so, and no more. */
  lemma MissingTells(c: Catalog, p: Profile, config: Config, i: nat)
    requires i < |p.attacks| && c.table(p.schema, p.attacks[i].table).None?
    ensures Tells(c, p, config, PlacesOf(c, p, config, i), AttackFindings(c, p, config, p.attacks[i]))
  {
    var part, high := i + 1, 6 + |p.attacks[i].operations|;
    PlacesSplit(c, p, config, part, 0, 1, high);
    assert forall n: nat | n > 0 :: !Against(c, p, config, Key(part, n));
    NothingAgainst(c, p, config, part, 1, high);
    OnePlace(c, p, config, part, 0);
    hide Places;
  }

  lemma {:induction false} NothingAgainst(c: Catalog, p: Profile, config: Config, part: nat, low: nat, high: nat)
    requires low <= high && forall n: nat | low <= n < high :: !Against(c, p, config, Key(part, n))
    ensures Places(c, p, config, part, low, high) == []
    decreases high - low
  {
    hide Against;
    if low < high {
      NothingAgainst(c, p, config, part, low + 1, high);
    }
  }

  // ---------- all attacks ----------

  function PlacesFrom(c: Catalog, p: Profile, config: Config, i: nat): seq<Key>
    requires i <= |p.attacks|
    decreases |p.attacks| - i
  {
    if i == |p.attacks| then [] else PlacesOf(c, p, config, i) + PlacesFrom(c, p, config, i + 1)
  }

  lemma {:induction false} AttacksTell(c: Catalog, p: Profile, config: Config, i: nat)
    requires i <= |p.attacks|
    ensures Tells(c, p, config, PlacesFrom(c, p, config, i), AttacksFindings(c, p, config, p.attacks[i..]))
    decreases |p.attacks| - i
  {
    hide PlacesOf, AttackFindings, Told;
    if i < |p.attacks| {
      assert p.attacks[i..][0] == p.attacks[i] && p.attacks[i..][1..] == p.attacks[i + 1..];
      AttackTells(c, p, config, i);
      AttacksTell(c, p, config, i + 1);
      TellsMore(c, p, config, PlacesOf(c, p, config, i), AttackFindings(c, p, config, p.attacks[i]),
        PlacesFrom(c, p, config, i + 1), AttacksFindings(c, p, config, p.attacks[i + 1..]));
      hide Tells;
    }
  }

  lemma AgainstIsPlaced(c: Catalog, p: Profile, config: Config, k: Key)
    requires Against(c, p, config, k)
    ensures if k.part == 0 then k.place < 5
            else k.part <= |p.attacks| && k.place < 6 + |p.attacks[k.part - 1].operations|
  {
    hide Granted;
  }

  lemma PlacesOfAscend(c: Catalog, p: Profile, config: Config, i: nat)
    requires i < |p.attacks|
    ensures forall k :: k in PlacesOf(c, p, config, i) <==> k.part == i + 1 && Against(c, p, config, k)
    ensures Ascending(PlacesOf(c, p, config, i))
  {
    forall k | Against(c, p, config, k) && k.part == i + 1 ensures k.place < 6 + |p.attacks[i].operations| {
      AgainstIsPlaced(c, p, config, k);
    }
    hide Against;
    PlacesAscend(c, p, config, i + 1, 0, 6 + |p.attacks[i].operations|);
  }

  lemma {:induction false} PlacesFromMembers(c: Catalog, p: Profile, config: Config, i: nat, k: Key)
    requires i <= |p.attacks|
    ensures k in PlacesFrom(c, p, config, i) <==> k.part > i && Against(c, p, config, k)
    decreases |p.attacks| - i
  {
    if Against(c, p, config, k) {
      AgainstIsPlaced(c, p, config, k);
    }
    hide Against, PlacesOf;
    if i < |p.attacks| {
      PlacesFromMembers(c, p, config, i + 1, k);
      PlacesOfAscend(c, p, config, i);
      hide Ascending;
    }
  }

  lemma {:induction false} PlacesFromAscend(c: Catalog, p: Profile, config: Config, i: nat)
    requires i <= |p.attacks|
    ensures Ascending(PlacesFrom(c, p, config, i))
    decreases |p.attacks| - i
  {
    hide Against, PlacesOf;
    if i < |p.attacks| {
      PlacesFromAscend(c, p, config, i + 1);
      PlacesOfAscend(c, p, config, i);
      var a, b := PlacesOf(c, p, config, i), PlacesFrom(c, p, config, i + 1);
      hide Ascending;
      forall x, y | x in a && y in b ensures x.part < y.part {
        PlacesFromMembers(c, p, config, i + 1, y);
      }
      AscendTogether(a, b);
    }
  }

  lemma AscendTogether(a: seq<Key>, b: seq<Key>)
    requires Ascending(a) && Ascending(b) && forall x, y :: x in a && y in b ==> x.part < y.part
    ensures Ascending(a + b)
  {
    var all := a + b;
    forall i, j | 0 <= i < j < |all| ensures Before(all[i], all[j]) {
      if i < |a| <= j {
        assert all[i] in a && all[j] in b;
      }
    }
  }

  /** Everything that speaks against the run, in the order in which the gate looks. */
  function AllPlaces(c: Catalog, p: Profile, config: Config): seq<Key> {
    Places(c, p, config, 0, 0, 5) + PlacesFrom(c, p, config, 0)
  }

  /** The gate's findings, one for each place that speaks against the run and in their order. */
  lemma FindingsAreInOrder(c: Catalog, p: Profile, config: Config)
    ensures var keys := AllPlaces(c, p, config);
      && (forall k :: k in keys <==> Against(c, p, config, k)) && Ascending(keys)
      && Tells(c, p, config, keys, AllFindings(c, p, config))
  {
    var a, b := Places(c, p, config, 0, 0, 5), PlacesFrom(c, p, config, 0);
    forall k | Against(c, p, config, k) && k.part == 0 ensures k.place < 5 {
      AgainstIsPlaced(c, p, config, k);
    }
    hide Against, Tells;
    PlacesAscend(c, p, config, 0, 0, 5);
    PlacesFromAscend(c, p, config, 0);
    forall k ensures k in b <==> k.part > 0 && Against(c, p, config, k) {
      PlacesFromMembers(c, p, config, 0, k);
    }
    AscendTogether(a, b);
    HeaderTells(c, p, config);
    AttacksTell(c, p, config, 0);
    assert p.attacks[0..] == p.attacks;
    hide Places, PlacesFrom, Ascending, ConfigFindings, LoginFindings, RoleFindings, AttacksFindings;
    TellsMore(c, p, config, a, ConfigFindings(p, config) + LoginFindings(c, config) + RoleFindings(c, config, p.owner)
      + RoleFindings(c, config, p.adversary), b, AttacksFindings(c, p, config, p.attacks));
  }
}
