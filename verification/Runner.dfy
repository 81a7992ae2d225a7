/** One run (internal/runner/runner.go): gate, transaction, seeding, then per attack the control and the operations. */
module Runner {
  import opened Wrappers
  import opened Domain
  import opened Postgres
  import Ordering
  import SqlSyntax
  import SqlSafe
  import Preflight
  import SessionConfig
  import Seeder
  import Control
  import Attacks
  import Evaluate

  /** Where the run is pointed: whether each contact succeeds, what the catalog says, and the database itself. */
  datatype Target = Target(
    opens: bool, login: Option<string>, catalog: Preflight.Catalog, begins: bool,
    base: Session, db: Database, server: Server)

  datatype RunError =
    | OpenFailed
    | LoginUnknown
    | BeginFailed
    | ConfigureFailed(failure: SessionConfig.Failure)
    | SeedFailed(cause: Seeder.Failure)
    | OuterRollbackFailed

  /** The report and error of a run, and its transaction as it stood just before the outer rollback. */
  datatype Run = Run(report: Option<Report>, error: Option<RunError>, tx: Option<Tx>)

  // ---------- the attack matrix ----------

  datatype Matrix = Matrix(tx: Tx, controlOK: bool, evidence: seq<Evidence>, failure: Option<SessionConfig.Failure>)

  function RowFor(owners: Seeder.OwnerRows, table: string): Row {
    if table in owners then owners[table] else map[]
  }

  ghost function InsertsFrom(db: Database, schema: string, attack: Attack, ops: seq<Operation>, t: Tx): (Tx,
          seq<Evidence>)
    decreases ops
  {
    if ops == [] then (t, [])
    else if ops[0] != Insert then InsertsFrom(db, schema, attack, ops[1..], t)
    else
      var (t', e) := Attacks.InsertAttempt(db, schema, attack, t);
      var (t'', rest) := InsertsFrom(db, schema, attack, ops[1..], t');
      (t'', [e] + rest)
  }

  /** The adversary's half of an attack. */
  ghost function Attacked(db: Database, p: Profile, a: Attack, row: Row, m: Matrix): Matrix {
    var (t, failure) := SessionConfig.Configured(db, p.schema, p.adversary, m.tx);
    if failure.Some? then m.(tx := t, failure := failure)
    else
      var (t1, e1) := Attacks.RunFrom(db, p.schema, a, row, a.operations, t);
      var (t2, e2) := InsertsFrom(db, p.schema, a, a.operations, t1);
      m.(tx := t2, evidence := m.evidence + e1 + e2)
  }

  ghost function MatrixStep(db: Database, p: Profile, owners: Seeder.OwnerRows, a: Attack, m: Matrix): Matrix {
    var row := RowFor(owners, a.table);
    var (t, failure) := SessionConfig.Configured(db, p.schema, p.owner, m.tx);
    if failure.Some? then m.(tx := t, failure := failure)
    else
      var (t', ok) := Control.Verified(db, p.schema, a, row, t);
      if !ok then m.(tx := t', controlOK := false) else Attacked(db, p, a, row, m.(tx := t'))
  }

  /** The matrix after the first n attacks; a failed configuration ends it. */
  ghost function MatrixUpTo(db: Database, p: Profile, owners: Seeder.OwnerRows, start: Tx, n: nat): Matrix
    requires n <= |p.attacks|
  {
    if n == 0 then Matrix(start, true, [], None)
    else
      var m := MatrixUpTo(db, p, owners, start, n - 1);
      if m.failure.Some? then m else MatrixStep(db, p, owners, p.attacks[n - 1], m)
  }

  function Required(attacks: seq<Attack>): seq<Operation>
    decreases attacks
  {
    if attacks == [] then [] else Required(attacks[..|attacks| - 1]) + attacks[|attacks| - 1].operations
  }

  function Verdict(p: Profile, findings: seq<Finding>, controlOK: bool, evidence: seq<Evidence>): Outcome {
    Evaluate.Verdict(controlOK, findings, Required(p.attacks), evidence)
  }

  function GateConfig(login: string): Preflight.Config {
    Preflight.Config(true, false, login)
  }

  function ReportOf(target: Target, outcome: Outcome, summary: string, findings: seq<Finding>,
          evidence: seq<Evidence>): Report {
    Report(outcome, summary, target.server, findings, evidence, [])
  }

  /** The run inside the transaction: its report or error, and the transaction when it is over. */
  ghost function InTransaction(target: Target, p: Profile, findings: seq<Finding>): Run {
    var db := target.db;
    var (t0, failure) := SessionConfig.Configured(db, p.schema, p.owner, Begin(target.base));
    if failure.Some? then Run(None, Some(ConfigureFailed(failure.value)), Some(t0))
    else
      var seeded := Seeder.SeedAll(db, p.schema, p.fixtures, t0);
      if seeded.failure.Some? then Run(None, Some(SeedFailed(seeded.failure.value)), Some(seeded.tx))
      else
        var m := MatrixUpTo(db, p, seeded.owners, seeded.tx, |p.attacks|);
        if m.failure.Some? then Run(None, Some(ConfigureFailed(m.failure.value)), Some(m.tx))
        else Run(
          Some(ReportOf(target, Verdict(p, findings, m.controlOK, m.evidence), "attack matrix completed", findings,
            m.evidence)),
          None, Some(m.tx))
  }

  /** The deferred rollback: its failure replaces the error, and keeps the report. */
  function Ended(db: Database, r: Run): Run {
    if r.tx.Some? && EndingOf(db, r.tx.value) != RolledBack then r.(error := Some(OuterRollbackFailed)) else r
  }

  ghost function Executed(target: Target, p: Profile): Run {
    if !target.opens then Run(None, Some(OpenFailed), None)
    else if target.login.None? then Run(None, Some(LoginUnknown), None)
    else
      var findings := Preflight.AllFindings(target.catalog, p, GateConfig(target.login.value));
      var gate := Preflight.Severest(findings);
      if gate != Pass then
        Run(Some(ReportOf(target, gate, "preflight did not permit execution", findings, [])), None, None)
      else if !target.begins then Run(None, Some(BeginFailed), None)
      else Ended(target.db, InTransaction(target, p, findings))
  }

  // ---------- what comes of the attacks ----------

  /** The failure, if there is one, that ends the run at an attack: a configuration that fails, the adversary's only
      after a control that succeeds. */
  ghost function FailureOf(db: Database, p: Profile, a: Attack, row: Row, t: Tx): Option<SessionConfig.Failure> {
    var (t1, ownerFailure) := SessionConfig.Configured(db, p.schema, p.owner, t);
    var (t2, ok) := Control.Verified(db, p.schema, a, row, t1);
    if ownerFailure.Some? then ownerFailure
    else if !ok then None else SessionConfig.Configured(db, p.schema, p.adversary, t2).1
  }

  ghost predicate ControlPasses(db: Database, p: Profile, a: Attack, row: Row, t: Tx) {
    Control.Verified(db, p.schema, a, row, SessionConfig.Configured(db, p.schema, p.owner, t).0).1
  }

  /** Where attack i starts. */
  ghost function StartOf(db: Database, p: Profile, owners: Seeder.OwnerRows, start: Tx, i: nat): Tx
    requires i <= |p.attacks|
  {
    MatrixUpTo(db, p, owners, start, i).tx
  }

  ghost function FailureAt(db: Database, p: Profile, owners: Seeder.OwnerRows, start: Tx,
          i: nat): Option<SessionConfig.Failure>
    requires i < |p.attacks|
  {
    FailureOf(db, p, p.attacks[i], RowFor(owners, p.attacks[i].table), StartOf(db, p, owners, start, i))
  }

  ghost predicate ControlAt(db: Database, p: Profile, owners: Seeder.OwnerRows, start: Tx, i: nat)
    requires i < |p.attacks|
  {
    ControlPasses(db, p, p.attacks[i], RowFor(owners, p.attacks[i].table), StartOf(db, p, owners, start, i))
  }

  /** Attack i is the first that ends the run. */
  ghost predicate EndsAt(db: Database, p: Profile, owners: Seeder.OwnerRows, start: Tx, i: nat) {
    && i < |p.attacks| && FailureAt(db, p, owners, start, i).Some?
    && forall j :: 0 <= j < i ==> FailureAt(db, p, owners, start, j) == None
  }

  ghost predicate NoneEnds(db: Database, p: Profile, owners: Seeder.OwnerRows, start: Tx) {
    forall i :: 0 <= i < |p.attacks| ==> FailureAt(db, p, owners, start, i) == None
  }

  lemma StepEnds(db: Database, p: Profile, owners: Seeder.OwnerRows, a: Attack, m: Matrix)
    requires m.failure == None
    ensures var m', row := MatrixStep(db, p, owners, a, m), RowFor(owners, a.table);
      && m'.failure == FailureOf(db, p, a, row, m.tx)
      && (m'.failure == None ==> (m'.controlOK <==> m.controlOK && ControlPasses(db, p, a, row, m.tx)))
  {
    hide SessionConfig.Configured, Control.Verified, Attacks.RunFrom, InsertsFrom;
  }

  /** After n attacks none of which ended the run. */
  lemma {:induction false} MatrixGoesOn(db: Database, p: Profile, owners: Seeder.OwnerRows, start: Tx, n: nat)
    requires n <= |p.attacks| && forall i :: 0 <= i < n ==> FailureAt(db, p, owners, start, i) == None
    ensures var m := MatrixUpTo(db, p, owners, start, n);
      m.failure == None && (m.controlOK <==> forall i :: 0 <= i < n ==> ControlAt(db, p, owners, start, i))
  {
    hide MatrixStep, FailureOf, ControlPasses;
    if n > 0 {
      MatrixGoesOn(db, p, owners, start, n - 1);
      assert FailureAt(db, p, owners, start, n - 1) == None;
      var m := MatrixUpTo(db, p, owners, start, n - 1);
      StepEnds(db, p, owners, p.attacks[n - 1], m);
      assert MatrixUpTo(db, p, owners, start, n).controlOK <==> m.controlOK && ControlAt(db, p, owners, start, n - 1);
      hide ControlAt;
    }
  }

  lemma MatrixEnds(db: Database, p: Profile, owners: Seeder.OwnerRows, start: Tx, i: nat)
    requires EndsAt(db, p, owners, start, i)
    ensures MatrixUpTo(db, p, owners, start, i + 1).failure == FailureAt(db, p, owners, start, i)
    ensures MatrixUpTo(db, p, owners, start, |p.attacks|) == MatrixUpTo(db, p, owners, start, i + 1)
  {
    hide MatrixStep, FailureOf;
    MatrixGoesOn(db, p, owners, start, i);
    StepEnds(db, p, owners, p.attacks[i], MatrixUpTo(db, p, owners, start, i));
    FailureStays(db, p, owners, start, i + 1, |p.attacks|);
  }

  lemma FirstEnd(db: Database, p: Profile, owners: Seeder.OwnerRows, start: Tx) returns (i: nat)
    requires !NoneEnds(db, p, owners, start)
    ensures EndsAt(db, p, owners, start, i)
  {
    hide FailureAt;
    i := 0;
    while FailureAt(db, p, owners, start, i) == None
      invariant i < |p.attacks| && forall j :: 0 <= j < i ==> FailureAt(db, p, owners, start, j) == None
      decreases |p.attacks| - i
    {
      i := i + 1;
    }
  }

  // ---------- the transaction stays open ----------

  lemma SendIsOpen(db: Database, t: Tx, sql: string, args: seq<Value>)
    ensures Send(db, t, sql, args).status.Closed? <==> t.status.Closed?
  {
  }

  lemma {:induction false} SettingsAreOpen(db: Database, names: seq<string>, settings: map<string, string>, t: Tx)
    requires !t.status.Closed? && forall n :: n in names ==> n in settings
    ensures !SessionConfig.SetFrom(db, names, settings, t).0.status.Closed?
    decreases names
  {
    hide Send;
    if names != [] {
      var binding := SessionConfig.Binding(names[0], settings[names[0]]);
      SendIsOpen(db, t, SqlSyntax.SET_CONFIG_TEXT, binding);
      SettingsAreOpen(db, names[1..], settings, Send(db, t, SqlSyntax.SET_CONFIG_TEXT, binding));
    }
  }

  lemma ConfiguredIsOpen(db: Database, schema: string, identity: Identity, t: Tx)
    requires !t.status.Closed?
    ensures !SessionConfig.Configured(db, schema, identity, t).0.status.Closed?
  {
    hide Send, SessionConfig.SetFrom;
    Ordering.SortedElementsMembers(identity.settings.Keys);
    var t1 := Send(db, t, SqlSyntax.SearchPathText(schema), []);
    SendIsOpen(db, t, SqlSyntax.SearchPathText(schema), []);
    var t2 := Send(db, t1, SqlSyntax.RoleText(identity.role), []);
    SendIsOpen(db, t1, SqlSyntax.RoleText(identity.role), []);
    SettingsAreOpen(db, Ordering.SortedElements(identity.settings.Keys), identity.settings, t2);
  }

  lemma {:induction false} SeedIsOpen(db: Database, schema: string, fixtures: seq<Fixture>, s: Seeder.Seeded)
    requires !s.tx.status.Closed?
    ensures !Seeder.SeedFrom(db, schema, fixtures, s).tx.status.Closed?
    decreases fixtures
  {
    hide Send, Seeder.FixtureStatement;
    if fixtures != [] && Seeder.FixtureStatement(schema, fixtures[0]).Ok? {
      var f, statement := fixtures[0], Seeder.FixtureStatement(schema, fixtures[0]).value;
      var next := Send(db, s.tx, statement.sql, statement.args);
      SendIsOpen(db, s.tx, statement.sql, statement.args);
      SeedIsOpen(db, schema, fixtures[1..], Seeder.Seeded(next, s.owners[f.table := f.ownerRow], None));
    }
  }

  lemma {:induction false} RunIsOpen(db: Database, schema: string, a: Attack, row: Row, ops: seq<Operation>, t: Tx)
    requires !t.status.Closed?
    ensures !Attacks.RunFrom(db, schema, a, row, ops, t).0.status.Closed?
    decreases ops
  {
    hide Attacks.StatementFor, Send;
    if ops != [] {
      var (t1, _) := Attacks.Attempt(db, schema, a, row, ops[0], t);
      if ops[0] == Insert {
        RunIsOpen(db, schema, a, row, ops[1..], t);
      } else {
        if !ops[0].Other? && Attacks.StatementFor(schema, a, row, ops[0]).Ok? {
          var s := Attacks.StatementFor(schema, a, row, ops[0]).value;
          SendIsOpen(db, t, s.sql, s.args);
        }
        RunIsOpen(db, schema, a, row, ops[1..], t1);
      }
    }
  }

  lemma {:induction false} InsertsAreOpen(db: Database, schema: string, a: Attack, ops: seq<Operation>, t: Tx)
    requires !t.status.Closed?
    ensures !InsertsFrom(db, schema, a, ops, t).0.status.Closed?
    decreases ops
  {
    hide SqlSafe.InsertStatement, Send;
    if ops != [] {
      var (t1, _) := Attacks.InsertAttempt(db, schema, a, t);
      var built := SqlSafe.InsertStatement(schema, a.table, a.insert, Ordering.SortedElements(a.insert.Keys));
      if built.Ok? {
        SendIsOpen(db, t, built.value.sql, built.value.args);
      }
      InsertsAreOpen(db, schema, a, ops[1..], if ops[0] == Insert then t1 else t);
    }
  }

  lemma StepIsOpen(db: Database, p: Profile, owners: Seeder.OwnerRows, a: Attack, m: Matrix)
    requires !m.tx.status.Closed?
    ensures !MatrixStep(db, p, owners, a, m).tx.status.Closed?
  {
    hide SessionConfig.Configured, Attacks.RunFrom, InsertsFrom, Send, SqlSafe.SelectStatement;
    var row := RowFor(owners, a.table);
    ConfiguredIsOpen(db, p.schema, p.owner, m.tx);
    var t := SessionConfig.Configured(db, p.schema, p.owner, m.tx).0;
    var built := SqlSafe.SelectStatement(p.schema, a.table, a.primaryKey, row);
    if built.Ok? {
      SendIsOpen(db, t, built.value.sql, built.value.args);
    }
    var t1 := Control.Verified(db, p.schema, a, row, t).0;
    ConfiguredIsOpen(db, p.schema, p.adversary, t1);
    var t2 := SessionConfig.Configured(db, p.schema, p.adversary, t1).0;
    RunIsOpen(db, p.schema, a, row, a.operations, t2);
    InsertsAreOpen(db, p.schema, a, a.operations, Attacks.RunFrom(db, p.schema, a, row, a.operations, t2).0);
  }

  lemma {:induction false} MatrixIsOpen(db: Database, p: Profile, owners: Seeder.OwnerRows, start: Tx, n: nat)
    requires n <= |p.attacks| && !start.status.Closed?
    ensures !MatrixUpTo(db, p, owners, start, n).tx.status.Closed?
  {
    hide MatrixStep;
    if n > 0 {
      MatrixIsOpen(db, p, owners, start, n - 1);
      StepIsOpen(db, p, owners, p.attacks[n - 1], MatrixUpTo(db, p, owners, start, n - 1));
    }
  }

  lemma InTransactionIsOpen(target: Target, p: Profile, findings: seq<Finding>)
    ensures var r := InTransaction(target, p, findings); r.tx.Some? && !r.tx.value.status.Closed?
  {
    hide SessionConfig.Configured, Seeder.SeedFrom, Verdict, MatrixUpTo;
    ConfiguredIsOpen(target.db, p.schema, p.owner, Begin(target.base));
    var t := SessionConfig.Configured(target.db, p.schema, p.owner, Begin(target.base)).0;
    SeedIsOpen(target.db, p.schema, p.fixtures, Seeder.Seeded(t, map[], None));
    var seeded := Seeder.SeedAll(target.db, p.schema, p.fixtures, t);
    MatrixIsOpen(target.db, p, seeded.owners, seeded.tx, |p.attacks|);
  }

  // ---------- how a run ends ----------

  /** A listed operation of which there is no evidence, or an error that is no denial, or no evidence at all. */
  predicate Incomplete(p: Profile, evidence: seq<Evidence>) {
    || evidence == []
    || (exists a :: a in p.attacks &&
          exists op :: op in a.operations && forall e :: e in evidence ==> e.operation != op)
    || exists e :: e in evidence && e.error != "" && !e.denied
  }

  /** The outcome of a run whose gate found nothing. */
  ghost predicate OutcomeFits(p: Profile, controls: bool, evidence: seq<Evidence>, o: Outcome) {
    && (o == Inconclusive <==> !controls || Incomplete(p, evidence))
    && (o == Pass <==> controls && !Incomplete(p, evidence) && forall e :: e in evidence ==> e.denied)
    && (o == Fail <==> controls && !Incomplete(p, evidence) && exists e :: e in evidence && !e.denied)
  }

  lemma {:induction false} RequiredIsListed(attacks: seq<Attack>, op: Operation)
    ensures op in Required(attacks) <==> exists a :: a in attacks && op in a.operations
    decreases attacks
  {
    if attacks != [] {
      var last := |attacks| - 1;
      RequiredIsListed(attacks[..last], op);
      assert attacks == attacks[..last] + [attacks[last]];
    }
  }

  lemma CoversIs(evidence: seq<Evidence>, op: Operation)
    ensures Evaluate.Covers(evidence, op) <==> exists e :: e in evidence && e.operation == op
  {
    if e :| e in evidence && e.operation == op {
      var i :| 0 <= i < |evidence| && evidence[i] == e;
    }
  }

  lemma UnclearIs(evidence: seq<Evidence>)
    ensures Evaluate.Unclear(evidence) <==> exists e :: e in evidence && e.error != "" && !e.denied
    ensures Evaluate.AllDenied(evidence) <==> forall e :: e in evidence ==> e.denied
  {
    if e :| e in evidence && e.error != "" && !e.denied {
      var i :| 0 <= i < |evidence| && evidence[i] == e;
    }
    if i :| 0 <= i < |evidence| && !evidence[i].denied {
      assert evidence[i] in evidence;
    }
  }

  lemma IncompleteIs(p: Profile, evidence: seq<Evidence>)
    ensures Incomplete(p, evidence) <==>
      evidence == [] || !Evaluate.AllCovered(Required(p.attacks), evidence) || Evaluate.Unclear(evidence)
  {
    UnclearIs(evidence);
    forall op
      ensures Evaluate.Covers(evidence, op) <==> exists e :: e in evidence && e.operation == op
      ensures op in Required(p.attacks) <==> exists a :: a in p.attacks && op in a.operations
    {
      CoversIs(evidence, op);
      RequiredIsListed(p.attacks, op);
    }
    var required := Required(p.attacks);
    hide Evaluate.Unclear, Evaluate.Covers, Required;
    if i :| 0 <= i < |required| && !Evaluate.Covers(evidence, required[i]) {
      assert required[i] in required;
      var a :| a in p.attacks && required[i] in a.operations;
      assert forall e :: e in evidence ==> e.operation != required[i];
    }
    if a, op :| a in p.attacks && op in a.operations && forall e :: e in evidence ==> e.operation != op {
      assert !Evaluate.Covers(evidence, op);
      var i :| 0 <= i < |required| && required[i] == op;
    }
  }

  lemma VerdictFits(p: Profile, controls: bool, evidence: seq<Evidence>)
    ensures OutcomeFits(p, controls, evidence, Verdict(p, [], controls, evidence))
  {
    IncompleteIs(p, evidence);
    UnclearIs(evidence);
    hide Incomplete, Evaluate.AllCovered, Evaluate.Unclear, Evaluate.AllDenied, Required;
  }

  /** A report of the run: its server, its findings, its evidence, and no sensitive values. */
  predicate ReportIs(target: Target, r: Report, summary: string, evidence: seq<Evidence>) {
    r.server == target.server && r.summary == summary && r.operations == evidence && r.sensitiveValues == []
  }

  /** The gate does not open: its findings are reported, as blocked or as inconclusive. */
  ghost predicate Refused(target: Target, p: Profile, config: Preflight.Config, report: Option<Report>) {
    && report.Some? && ReportIs(target, report.value, "preflight did not permit execution", [])
    && report.value.outcome == (if Preflight.MustBlock(target.catalog, p, config) then Blocked else Inconclusive)
    && forall f :: f in report.value.findings <==> Preflight.Concern(target.catalog, p, config, f)
  }

  /** A run inside its transaction, which it leaves as `before`.  It ends without a report and for a cause if the first
      configuration fails, a fixture is not seeded, or a configuration fails at an attack; else it reports all
      attacks. */
  ghost predicate RanTo(target: Target, p: Profile, report: Option<Report>, cause: Option<RunError>, before: Tx) {
    var db := target.db;
    var (t0, failure) := SessionConfig.Configured(db, p.schema, p.owner, Begin(target.base));
    if failure.Some? then report == None && cause == Some(ConfigureFailed(failure.value)) && before == t0
    else
      var seeded := Seeder.SeedAll(db, p.schema, p.fixtures, t0);
      if seeded.failure.Some? then
        report == None && cause == Some(SeedFailed(seeded.failure.value)) && before == seeded.tx
      else if !NoneEnds(db, p, seeded.owners, seeded.tx) then
        && report == None
        && exists i: nat ::
             && EndsAt(db, p, seeded.owners, seeded.tx, i)
             && cause == Some(ConfigureFailed(FailureAt(db, p, seeded.owners, seeded.tx, i).value))
             && before == StartOf(db, p, seeded.owners, seeded.tx, i + 1)
      else
        && cause == None && before == StartOf(db, p, seeded.owners, seeded.tx, |p.attacks|)
        && report.Some? && report.value.findings == []
        && ReportIs(target, report.value, "attack matrix completed",
          MatrixUpTo(db, p, seeded.owners, seeded.tx, |p.attacks|).evidence)
        && OutcomeFits(p, forall i :: 0 <= i < |p.attacks| ==> ControlAt(db, p, seeded.owners, seeded.tx, i),
          report.value.operations, report.value.outcome)
  }

  /** How a run ends, phase by phase.  An outer rollback that is lost takes the place of any other error, and keeps the
      report. */
  ghost predicate EndsRightly(target: Target, p: Profile, report: Option<Report>, error: Option<RunError>,
          before: Option<Tx>) {
    if !target.opens then report == None && error == Some(OpenFailed) && before == None
    else if target.login.None? then report == None && error == Some(LoginUnknown) && before == None
    else
      var config := Preflight.Config(true, false, target.login.value);
      if Preflight.MustBlock(target.catalog, p, config) || Preflight.InDoubt(target.catalog, p) then
        Refused(target, p, config, report) && error == None && before == None
      else if !target.begins then report == None && error == Some(BeginFailed) && before == None
      else
        && before.Some?
        && exists cause ::
             && RanTo(target, p, report, cause, before.value)
             && error == if target.db.lost(|before.value.log|) then Some(OuterRollbackFailed) else cause
  }

  lemma MatrixReports(target: Target, p: Profile, owners: Seeder.OwnerRows, start: Tx)
    requires NoneEnds(target.db, p, owners, start)
    ensures var m := MatrixUpTo(target.db, p, owners, start, |p.attacks|);
      && m.failure == None
      && OutcomeFits(p, forall i :: 0 <= i < |p.attacks| ==> ControlAt(target.db, p, owners, start, i), m.evidence,
        Verdict(p, [], m.controlOK, m.evidence))
  {
    var m := MatrixUpTo(target.db, p, owners, start, |p.attacks|);
    hide FailureAt, ControlAt, MatrixUpTo, Verdict, OutcomeFits;
    MatrixGoesOn(target.db, p, owners, start, |p.attacks|);
    VerdictFits(p, m.controlOK, m.evidence);
  }

  lemma InTransactionRanTo(target: Target, p: Profile)
    ensures var r := InTransaction(target, p, []);
      r.tx.Some? && RanTo(target, p, r.report, r.error, r.tx.value)
  {
    var db := target.db;
    var (t0, failure) := SessionConfig.Configured(db, p.schema, p.owner, Begin(target.base));
    var seeded := Seeder.SeedAll(db, p.schema, p.fixtures, t0);
    hide SessionConfig.Configured, Seeder.SeedAll, Verdict, OutcomeFits, MatrixUpTo, EndsAt, NoneEnds, FailureAt;
    if failure == None && seeded.failure == None {
      if NoneEnds(db, p, seeded.owners, seeded.tx) {
        MatrixReports(target, p, seeded.owners, seeded.tx);
      } else {
        var i := FirstEnd(db, p, seeded.owners, seeded.tx);
        MatrixEnds(db, p, seeded.owners, seeded.tx, i);
        EndsSome(db, p, seeded.owners, seeded.tx, i);
      }
    }
  }

  lemma EndsSome(db: Database, p: Profile, owners: Seeder.OwnerRows, start: Tx, i: nat)
    requires EndsAt(db, p, owners, start, i)
    ensures i < |p.attacks| && FailureAt(db, p, owners, start, i).Some?
  {
  }

  /** What a run returns is right for where it ended. */
  lemma RunEndsRightly(target: Target, p: Profile)
    ensures var r := Executed(target, p); EndsRightly(target, p, r.report, r.error, r.tx)
  {
    hide InTransaction, Preflight.AllFindings, Preflight.Severest, Preflight.MustBlock, Preflight.InDoubt;
    hide Preflight.Concern, RanTo;
    if target.opens && target.login.Some? {
      var config := GateConfig(target.login.value);
      Preflight.FindingsAreConcerns(target.catalog, p, config);
      Preflight.OutcomeIsExact(target.catalog, p, config);
      if !Preflight.MustBlock(target.catalog, p, config) && !Preflight.InDoubt(target.catalog, p) {
        Preflight.PassFindsNothing(target.catalog, p, config);
      }
      InTransactionRanTo(target, p);
      InTransactionIsOpen(target, p, []);
    }
  }

  /** No error exactly when there is a report and, if a transaction was begun, its rollback arrived. */
  lemma ErrorIffIncomplete(target: Target, p: Profile)
    ensures var r := Executed(target, p);
      r.error == None <==> r.report.Some? && (r.tx.Some? ==> !target.db.lost(|r.tx.value.log|))
  {
    RunEndsRightly(target, p);
    hide Executed, SessionConfig.Configured, Seeder.SeedAll, Preflight.MustBlock, Preflight.InDoubt, Refused, RanTo;
    RefusedReports(target, p);
    forall report, cause, before: Tx | RanTo(target, p, report, cause, before) ensures report.Some? <==> cause == None {
      RanToReports(target, p, report, cause, before);
    }
  }

  lemma RefusedReports(target: Target, p: Profile)
    ensures forall config, report :: Refused(target, p, config, report) ==> report.Some?
  {
  }

  lemma RanToReports(target: Target, p: Profile, report: Option<Report>, cause: Option<RunError>, before: Tx)
    requires RanTo(target, p, report, cause, before)
    ensures report.Some? <==> cause == None
  {
    hide SessionConfig.Configured, Seeder.SeedAll, NoneEnds, EndsAt, OutcomeFits, MatrixUpTo;
  }

  // ---------- the code ----------

  method AttackInserts(tx: Transaction, schema: string, attack: Attack) returns (out: seq<Evidence>)
    modifies tx
    ensures (tx.State(), out) == InsertsFrom(tx.db, schema, attack, attack.operations, old(tx.State()))
  {
    hide Attacks.InsertAttempt;
    var ops := attack.operations;
    out := [];
    assert ops[0..] == ops;
    assert out + InsertsFrom(tx.db, schema, attack, ops, tx.State()).1
      == InsertsFrom(tx.db, schema, attack, ops, tx.State()).1;
    for i := 0 to |ops|
      invariant (var (t, rest) := InsertsFrom(tx.db, schema, attack, ops[i..], tx.State()); (t, out + rest))
        == InsertsFrom(tx.db, schema, attack, ops, old(tx.State()))
    {
      assert ops[i..][1..] == ops[i + 1..];
      if ops[i] == Insert {
        ghost var rest := InsertsFrom(tx.db, schema, attack, ops[i..], tx.State()).1;
        var e := Attacks.InsertOne(tx, schema, attack);
        assert out + rest == (out + [e]) + rest[1..];
        out := out + [e];
      }
    }
    assert out + [] == out;
  }

  /** One pass of the attack loop. */
  method RunAttack(tx: Transaction, p: Profile, owners: Seeder.OwnerRows, a: Attack, controlOK0: bool,
          evidence0: seq<Evidence>)
    returns (controlOK: bool, evidence: seq<Evidence>, failure: Option<SessionConfig.Failure>)
    modifies tx
    ensures Matrix(tx.State(), controlOK, evidence, failure)
      == MatrixStep(tx.db, p, owners, a, Matrix(old(tx.State()), controlOK0, evidence0, None))
  {
    hide SessionConfig.Configured, Control.Verified, Attacks.RunFrom, InsertsFrom;
    controlOK, evidence := controlOK0, evidence0;
    var row := RowFor(owners, a.table);
    failure := SessionConfig.Configure(tx, p.schema, p.owner);
    if failure.Some? {
      return;
    }
    var ok := Control.Verify(tx, p.schema, a, row);
    if !ok {
      controlOK := false;
      return;
    }
    failure := SessionConfig.Configure(tx, p.schema, p.adversary);
    if failure.Some? {
      return;
    }
    var run := Attacks.Run(tx, p.schema, a, row);
    evidence := evidence + run;
    var inserts := AttackInserts(tx, p.schema, a);
    evidence := evidence + inserts;
  }

  method RequiredOperations(attacks: seq<Attack>) returns (required: seq<Operation>)
    ensures required == Required(attacks)
  {
    required := [];
    for i := 0 to |attacks|
      invariant required == Required(attacks[..i])
    {
      assert attacks[..i + 1][..i] == attacks[..i];
      required := required + attacks[i].operations;
    }
    assert attacks[..|attacks|] == attacks;
  }

  lemma {:induction false} FailureStays(db: Database, p: Profile, owners: Seeder.OwnerRows, start: Tx, i: nat, n: nat)
    requires i <= n <= |p.attacks| && MatrixUpTo(db, p, owners, start, i).failure.Some?
    ensures MatrixUpTo(db, p, owners, start, n) == MatrixUpTo(db, p, owners, start, i)
    decreases n - i
  {
    hide MatrixStep;
    if i < n {
      FailureStays(db, p, owners, start, i, n - 1);
    }
  }

  method RunMatrix(tx: Transaction, p: Profile, owners: Seeder.OwnerRows)
    returns (controlOK: bool, evidence: seq<Evidence>, failure: Option<SessionConfig.Failure>)
    modifies tx
    ensures Matrix(tx.State(), controlOK, evidence, failure)
      == MatrixUpTo(tx.db, p, owners, old(tx.State()), |p.attacks|)
  {
    hide MatrixStep;
    controlOK, evidence, failure := true, [], None;
    for i := 0 to |p.attacks|
      invariant failure == None
      invariant Matrix(tx.State(), controlOK, evidence, None) == MatrixUpTo(tx.db, p, owners, old(tx.State()), i)
    {
      controlOK, evidence, failure := RunAttack(tx, p, owners, p.attacks[i], controlOK, evidence);
      if failure.Some? {
        FailureStays(tx.db, p, owners, old(tx.State()), i + 1, |p.attacks|);
        return;
      }
    }
  }

  method RunInTransaction(target: Target, tx: Transaction, p: Profile, findings: seq<Finding>)
    returns (report: Option<Report>, error: Option<RunError>)
    requires tx.db == target.db && tx.State() == Begin(target.base)
    modifies tx
    ensures Run(report, error, Some(tx.State())) == InTransaction(target, p, findings)
  {
    hide SessionConfig.Configured, Seeder.SeedAll, MatrixUpTo, Evaluate.Verdict;
    var failure := SessionConfig.Configure(tx, p.schema, p.owner);
    if failure.Some? {
      return None, Some(ConfigureFailed(failure.value));
    }
    var owners, seedFailure := Seeder.Seed(tx, p.schema, p.fixtures);
    if seedFailure.Some? {
      return None, Some(SeedFailed(seedFailure.value));
    }
    var controlOK, evidence, matrixFailure := RunMatrix(tx, p, owners);
    if matrixFailure.Some? {
      return None, Some(ConfigureFailed(matrixFailure.value));
    }
    var required := RequiredOperations(p.attacks);
    var outcome := Evaluate.Outcome(controlOK, findings, required, evidence);
    return Some(ReportOf(target, outcome, "attack matrix completed", findings, evidence)), None;
  }

  method Execute(target: Target, p: Profile)
    returns (report: Option<Report>, error: Option<RunError>, ghost before: Option<Tx>)
    ensures report == Executed(target, p).report && error == Executed(target, p).error
    ensures before == Executed(target, p).tx
    ensures EndsRightly(target, p, report, error, before)
    ensures error == None <==> report.Some? && (before.Some? ==> !target.db.lost(|before.value.log|))
  {
    RunEndsRightly(target, p);
    ErrorIffIncomplete(target, p);
    hide InTransaction, Preflight.AllFindings, Preflight.Severest;
    before := None;
    if !target.opens {
      return None, Some(OpenFailed), None;
    }
    if target.login.None? {
      return None, Some(LoginUnknown), None;
    }
    var findings, gate := Preflight.Check(target.catalog, p, Preflight.Config(true, false, target.login.value));
    if gate != Pass {
      return Some(ReportOf(target, gate, "preflight did not permit execution", findings, [])), None, None;
    }
    if !target.begins {
      return None, Some(BeginFailed), None;
    }
    var tx := new Transaction(target.db, target.base);
    report, error := RunInTransaction(target, tx, p, findings);
    before := Some(tx.State());
    var ending := tx.Rollback();
    if ending != RolledBack {
      error := Some(OuterRollbackFailed);
    }
  }
}
