/** What a verdict of the runner means: isolation behind `pass`, a real access behind `fail`. */
module Isolation {
  import opened Wrappers
  import opened Text
  import opened Domain
  import opened SqlSyntax
  import opened Ordering
  import opened Postgres
  import opened Runner
  import SqlSafe
  import Preflight
  import SessionConfig
  import Seeder
  import Control
  import Attacks
  import Evaluate

  function Rel(p: Profile, a: Attack): Relation {
    Relation(p.schema, a.table)
  }

  predicate KeyOperation(op: Operation) {
    op.Select? || op.Update? || op.Delete?
  }

  // ---------- one attack's operations ----------

  ghost predicate DeniedAll(evidence: seq<Evidence>) {
    forall e :: e in evidence ==> e.denied
  }

  /** No operation of the list reaches a row with the key. */
  ghost predicate NoneReached(db: Database, ops: seq<Operation>, s: Session, rel: Relation, keys: seq<string>,
          values: Row) {
    forall op :: op in ops && !op.Insert? ==> KeyOperation(op) && !AnyReached(db, op, s, rel, keys, values)
  }

  /** Reads, updates and deletes that were all denied changed nothing and reached nothing. */
  lemma {:induction false} DeniedRun(db: Database, schema: string, a: Attack, row: Row, ops: seq<Operation>, t: Tx)
    requires !db.effectful(Relation(schema, a.table))
    requires DeniedAll(Attacks.RunFrom(db, schema, a, row, ops, t).1)
    ensures var t' := Attacks.RunFrom(db, schema, a, row, ops, t).0;
      && AllAccepted(t, t') && t' == t.(log := t'.log)
      && NoneReached(db, ops, t.session, Relation(schema, a.table), a.primaryKey, row)
    decreases ops
  {
    hide Attacks.Attempt, AllAccepted, AnyReached, DeniedAll;
    if ops == [] {
      AllAcceptedReflexive(t);
    } else if ops[0] == Insert {
      DeniedRun(db, schema, a, row, ops[1..], t);
      assert ops == [ops[0]] + ops[1..];
    } else {
      var (t1, e) := Attacks.Attempt(db, schema, a, row, ops[0], t);
      var (t2, rest) := Attacks.RunFrom(db, schema, a, row, ops[1..], t1);
      Attacks.AttemptMeans(db, schema, a, row, ops[0], t);
      DeniedCons(e, rest);
      DeniedRun(db, schema, a, row, ops[1..], t1);
      AllAcceptedTransitive(t, t1, t2);
      assert ops == [ops[0]] + ops[1..];
    }
  }

  lemma DeniedCons(e: Evidence, rest: seq<Evidence>)
    ensures DeniedAll([e] + rest) <==> e.denied && DeniedAll(rest)
  {
    assert forall x :: x in [e] + rest <==> x == e || x in rest;
  }

  lemma DeniedConcat(a: seq<Evidence>, b: seq<Evidence>)
    ensures DeniedAll(a + b) <==> DeniedAll(a) && DeniedAll(b)
  {
    assert forall x :: x in a + b <==> x in a || x in b;
  }

  /** The one rejection a passing run can have: an insert refused with 42501, after which nothing was accepted. */
  predicate OneDenial(log: seq<Entry>, from: nat, k: int) {
    && from <= k < |log|
    && log[k].reply == ServerError(DENIED) && Parse(log[k].sql).Some? && Parse(log[k].sql).value.InsertRow?
    && (forall j :: from <= j < |log| && log[j].reply.ServerError? ==> j == k)
    && forall j :: k < j < |log| ==> log[j].reply.Failed()
  }

  /** Since t0: still active without a rejection, or aborted by that one. */
  ghost predicate Standing(t0: Tx, t: Tx) {
    && t0.log <= t.log
    && if t.status.Active? then Attacks.NoRejection(t0, t)
       else t.status.Aborted? && exists k :: OneDenial(t.log, |t0.log|, k)
  }

  lemma StandingInsert(t0: Tx, t: Tx, t': Tx, sql: string)
    requires Standing(t0, t) && Attacks.InsertDenied(t, t', sql)
    ensures Standing(t0, t')
  {
    hide Parse;
    var n := |t.log|;
    assert forall j :: 0 <= j < n ==> t'.log[j] == t.log[j];
    if t'.log[n].reply.ClientError? {
      if t.status.Aborted? {
        var k :| OneDenial(t.log, |t0.log|, k);
        assert OneDenial(t'.log, |t0.log|, k);
      }
    } else {
      assert OneDenial(t'.log, |t0.log|, n);
    }
  }

  lemma {:induction false} DeniedInserts(db: Database, schema: string, a: Attack, ops: seq<Operation>, t0: Tx, t: Tx)
    requires Standing(t0, t) && DeniedAll(InsertsFrom(db, schema, a, ops, t).1)
    ensures var t' := InsertsFrom(db, schema, a, ops, t).0;
      Standing(t0, t') && t'.session == t.session && t'.outer == t.outer
    decreases ops
  {
    if ops != [] {
      if ops[0] != Insert {
        DeniedInserts(db, schema, a, ops[1..], t0, t);
      } else {
        var (t1, e) := Attacks.InsertAttempt(db, schema, a, t);
        var (t2, rest) := InsertsFrom(db, schema, a, ops[1..], t1);
        Attacks.InsertMeans(db, schema, a, t);
        DeniedCons(e, rest);
        StandingInsert(t0, t, t1, t1.log[|t.log|].sql);
        hide Standing, Attacks.InsertAttempt;
        DeniedInserts(db, schema, a, ops[1..], t0, t1);
      }
    }
  }

  lemma StandingOn(t0: Tx, t: Tx, t': Tx)
    requires Standing(t0, t) && t.status.Active? && AllAccepted(t, t') && t'.status.Active?
    ensures Standing(t0, t')
  {
    assert forall j :: 0 <= j < |t.log| ==> t'.log[j] == t.log[j];
  }

  // ---------- one attack ----------

  function OwnerSession(p: Profile, s: Session): Session {
    SessionConfig.With(s, p.schema, p.owner)
  }

  function AdversarySession(p: Profile, s: Session): Session {
    SessionConfig.With(OwnerSession(p, s), p.schema, p.adversary)
  }

  /** An attack that leaves the run in good standing: the owner saw its row, the adversary reached none, nothing
      changed. */
  ghost predicate CleanAttack(db: Database, p: Profile, a: Attack, row: Row, t: Tx, t': Tx) {
    && t.status.Active?
    && AnyReached(db, Select, OwnerSession(p, t.session), Rel(p, a), a.primaryKey, row)
    && NoneReached(db, a.operations, AdversarySession(p, t.session), Rel(p, a), a.primaryKey, row)
    && t'.session == AdversarySession(p, t.session) && t'.outer == t.outer
  }

  ghost predicate Good(m: Matrix) {
    m.failure == None && m.controlOK && DeniedAll(m.evidence)
  }

  lemma CleanStep(db: Database, p: Profile, owners: Seeder.OwnerRows, a: Attack, m: Matrix, t0: Tx)
    requires !db.effectful(Rel(p, a)) && Standing(t0, m.tx) && m.failure == None
    requires Good(MatrixStep(db, p, owners, a, m))
    ensures var m' := MatrixStep(db, p, owners, a, m);
      Good(m) && CleanAttack(db, p, a, RowFor(owners, a.table), m.tx, m'.tx) && Standing(t0, m'.tx)
  {
    hide SessionConfig.Configured, Control.Verified, Attacked, Standing, NoneReached, AllAccepted, Reached, DeniedAll;
    var row := RowFor(owners, a.table);
    var (t, _) := SessionConfig.Configured(db, p.schema, p.owner, m.tx);
    SessionConfig.ConfiguredOverlays(db, p.schema, p.owner, m.tx);
    var (t1, _) := Control.Verified(db, p.schema, a, row, t);
    Control.VerifiedObserves(db, p.schema, a, row, t);
    AllAcceptedTransitive(m.tx, t, t1);
    CleanAdversary(db, p, a, row, m.(tx := t1), m.tx, t0);
  }

  lemma CleanAdversary(db: Database, p: Profile, a: Attack, row: Row, m: Matrix, t: Tx, t0: Tx)
    requires !db.effectful(Rel(p, a)) && Standing(t0, t) && t.status.Active? && m.failure == None
    requires AllAccepted(t, m.tx) && m.tx == t.(log := m.tx.log, session := OwnerSession(p, t.session))
    requires Good(Attacked(db, p, a, row, m))
    ensures var t' := Attacked(db, p, a, row, m).tx;
      && Good(m)
      && NoneReached(db, a.operations, AdversarySession(p, t.session), Rel(p, a), a.primaryKey, row)
      && t'.session == AdversarySession(p, t.session) && t'.outer == t.outer
      && Standing(t0, t')
  {
    var (t2, _) := SessionConfig.Configured(db, p.schema, p.adversary, m.tx);
    SessionConfig.ConfiguredOverlays(db, p.schema, p.adversary, m.tx);
    var (t3, e1) := Attacks.RunFrom(db, p.schema, a, row, a.operations, t2);
    var (t4, e2) := InsertsFrom(db, p.schema, a, a.operations, t3);
    DeniedConcat(m.evidence + e1, e2);
    DeniedConcat(m.evidence, e1);
    DeniedRun(db, p.schema, a, row, a.operations, t2);
    AllAcceptedTransitive(t, m.tx, t2);
    AllAcceptedTransitive(t, t2, t3);
    StandingOn(t0, t, t3);
    hide Standing, AllAccepted, SessionConfig.Configured;
    DeniedInserts(db, p.schema, a, a.operations, t0, t3);
  }

  // ---------- all attacks ----------

  /** No attacked table has triggers or rules. */
  ghost predicate NoEffects(db: Database, p: Profile) {
    forall a :: a in p.attacks ==> !db.effectful(Rel(p, a))
  }

  /** The settings in force at the start of the i-th attack of a run without failures. */
  function StartSettings(p: Profile, base: map<string, string>, i: nat): map<string, string> {
    if i == 0 then base + p.owner.settings else base + p.owner.settings + p.adversary.settings
  }

  lemma SettingsAreStable(p: Profile, base: map<string, string>, i: nat)
    ensures StartSettings(p, base, i) + p.owner.settings + p.adversary.settings
      == base + p.owner.settings + p.adversary.settings
  {
  }

  lemma GoodBefore(db: Database, p: Profile, owners: Seeder.OwnerRows, a: Attack, m: Matrix)
    requires Good(if m.failure.Some? then m else MatrixStep(db, p, owners, a, m))
    ensures Good(m)
  {
    hide SessionConfig.Configured, Control.Verified, Attacks.RunFrom, InsertsFrom;
    var row := RowFor(owners, a.table);
    var t := Control.Verified(db, p.schema, a, row, SessionConfig.Configured(db, p.schema, p.owner, m.tx).0).0;
    var t2 := SessionConfig.Configured(db, p.schema, p.adversary, t).0;
    var (t3, e1) := Attacks.RunFrom(db, p.schema, a, row, a.operations, t2);
    var (t4, e2) := InsertsFrom(db, p.schema, a, a.operations, t3);
    DeniedConcat(m.evidence + e1, e2);
    DeniedConcat(m.evidence, e1);
  }

  lemma {:induction false} GoodAt(db: Database, p: Profile, owners: Seeder.OwnerRows, start: Tx, i: nat, n: nat)
    requires i <= n <= |p.attacks| && Good(MatrixUpTo(db, p, owners, start, n))
    ensures Good(MatrixUpTo(db, p, owners, start, i))
    decreases n - i
  {
    hide MatrixStep, Good;
    if i < n {
      GoodBefore(db, p, owners, p.attacks[n - 1], MatrixUpTo(db, p, owners, start, n - 1));
      GoodAt(db, p, owners, start, i, n - 1);
    }
  }

  lemma CleanStepAt(db: Database, p: Profile, owners: Seeder.OwnerRows, start: Tx, i: nat)
    requires i < |p.attacks| && NoEffects(db, p)
    requires Good(MatrixUpTo(db, p, owners, start, i + 1)) && Good(MatrixUpTo(db, p, owners, start, i))
    requires Standing(start, MatrixUpTo(db, p, owners, start, i).tx)
    ensures var m, m' := MatrixUpTo(db, p, owners, start, i), MatrixUpTo(db, p, owners, start, i + 1);
      CleanAttack(db, p, p.attacks[i], RowFor(owners, p.attacks[i].table), m.tx, m'.tx) && Standing(start, m'.tx)
  {
    var m := MatrixUpTo(db, p, owners, start, i);
    assert MatrixUpTo(db, p, owners, start, i + 1) == MatrixStep(db, p, owners, p.attacks[i], m);
    hide MatrixUpTo, MatrixStep, Standing, CleanAttack;
    CleanStep(db, p, owners, p.attacks[i], m, start);
  }

  lemma CleanSessions(db: Database, p: Profile, a: Attack, row: Row, t: Tx, t': Tx)
    requires CleanAttack(db, p, a, row, t, t')
    ensures t'.outer == t.outer && t'.session.tables == t.session.tables
    ensures t'.session.settings == t.session.settings + p.owner.settings + p.adversary.settings
  {
    hide AnyReached, NoneReached;
  }

  lemma StandingFromStart(t: Tx)
    requires t.status.Active?
    ensures Standing(t, t)
  {
  }

  /** A good run keeps the seeded tables, and its settings follow a fixed pattern. */
  lemma {:induction false} GoodRun(db: Database, p: Profile, owners: Seeder.OwnerRows, start: Tx,
          base: map<string, string>, n: nat)
    requires n <= |p.attacks| && NoEffects(db, p) && start.status.Active?
    requires start.session.settings == base + p.owner.settings
    requires Good(MatrixUpTo(db, p, owners, start, n))
    ensures var t := MatrixUpTo(db, p, owners, start, n).tx;
      && Standing(start, t) && t.session.tables == start.session.tables && t.outer == start.outer
      && t.session.settings == StartSettings(p, base, n)
  {
    hide *;
    if n == 0 {
      StandingFromStart(start);
      MatrixStarts(db, p, owners, start, base);
    } else {
      var i := n - 1;
      GoodAt(db, p, owners, start, i, n);
      GoodRun(db, p, owners, start, base, i);
      CleanStepAt(db, p, owners, start, i);
      CleanSessions(db, p, p.attacks[i], RowFor(owners, p.attacks[i].table),
        MatrixUpTo(db, p, owners, start, i).tx, MatrixUpTo(db, p, owners, start, n).tx);
      SettingsAreStable(p, base, i);
      SettingsLater(p, base, n);
    }
  }

  lemma MatrixStarts(db: Database, p: Profile, owners: Seeder.OwnerRows, start: Tx, base: map<string, string>)
    ensures MatrixUpTo(db, p, owners, start, 0).tx == start && StartSettings(p, base, 0) == base + p.owner.settings
  {
  }

  lemma SettingsLater(p: Profile, base: map<string, string>, n: nat)
    requires n > 0
    ensures StartSettings(p, base, n) == base + p.owner.settings + p.adversary.settings
  {
  }

  /** Every attack of a good run is clean, and starts on the seeded tables with the settings of its place. */
  lemma CleanAttackAt(db: Database, p: Profile, owners: Seeder.OwnerRows, start: Tx, base: map<string, string>, i: nat)
    requires i < |p.attacks| && NoEffects(db, p) && start.status.Active?
    requires start.session.settings == base + p.owner.settings
    requires Good(MatrixUpTo(db, p, owners, start, |p.attacks|))
    ensures var m, m' := MatrixUpTo(db, p, owners, start, i), MatrixUpTo(db, p, owners, start, i + 1);
      && CleanAttack(db, p, p.attacks[i], RowFor(owners, p.attacks[i].table), m.tx, m'.tx)
      && Standing(start, m.tx) && m.tx.status.Active?
      && Good(m) && Good(m')
      && m.tx.session.tables == start.session.tables && m.tx.session.settings == StartSettings(p, base, i)
  {
    hide MatrixUpTo, Standing, Good, StartSettings, NoEffects, AnyReached, NoneReached;
    GoodAt(db, p, owners, start, i, |p.attacks|);
    GoodAt(db, p, owners, start, i + 1, |p.attacks|);
    GoodRun(db, p, owners, start, base, i);
    CleanStepAt(db, p, owners, start, i);
  }

  // ---------- from the report back to the matrix ----------

  ghost predicate Reports(target: Target, p: Profile, o: Outcome) {
    Executed(target, p).report.Some? && Executed(target, p).report.value.outcome == o
  }

  /** The catalog tells the truth about triggers and rules. */
  ghost predicate Truthful(target: Target, p: Profile) {
    forall a :: a in p.attacks ==>
      match target.catalog.table(p.schema, a.table)
      case None => true
      case Some(t) => t.triggers == [] && t.rules == [] ==> !target.db.effectful(Rel(p, a))
  }

  ghost function Seeding(target: Target, p: Profile): Seeder.Seeded {
    Seeder.SeedAll(target.db, p.schema, p.fixtures,
      SessionConfig.Configured(target.db, p.schema, p.owner, Begin(target.base)).0)
  }

  ghost function Final(target: Target, p: Profile): Matrix {
    MatrixUpTo(target.db, p, Seeding(target, p).owners, Seeding(target, p).tx, |p.attacks|)
  }

  /** A `pass` or `fail` comes from a completed matrix behind an open gate. */
  lemma VerdictFromMatrix(target: Target, p: Profile, o: Outcome)
    requires Reports(target, p, o) && (o == Pass || o == Fail)
    ensures target.login.Some? && Preflight.Clear(target.catalog, p, GateConfig(target.login.value))
    ensures SessionConfig.Configured(target.db, p.schema, p.owner, Begin(target.base)).1 == None
    ensures Seeding(target, p).failure == None && Final(target, p).failure == None
    ensures Executed(target, p).tx == Some(Final(target, p).tx)
    ensures Executed(target, p).report.value.operations == Final(target, p).evidence
    ensures exists findings :: o == Verdict(p, findings, Final(target, p).controlOK, Final(target, p).evidence)
  {
    hide SessionConfig.Configured, Seeder.SeedAll, MatrixUpTo, Preflight.AllFindings, Preflight.Severest;
    hide Preflight.Clear, Verdict;
    var config := GateConfig(target.login.value);
    Preflight.GateIsExact(target.catalog, p, config);
    GateNeverFails(Preflight.AllFindings(target.catalog, p, config));
  }

  lemma GateNeverFails(findings: seq<Finding>)
    ensures Preflight.Severest(findings) != Fail
  {
  }

  lemma SeedingIsActive(target: Target, p: Profile)
    requires SessionConfig.Configured(target.db, p.schema, p.owner, Begin(target.base)).1 == None
    requires Seeding(target, p).failure == None
    ensures var t := Seeding(target, p).tx;
      && t.status.Active? && t.outer == target.base && AllAccepted(Begin(target.base), t)
      && t.session.settings == target.base.settings + p.owner.settings
    ensures Seeding(target, p).owners == Seeder.OwnersAfter(p.fixtures, map[])
  {
    var t0 := SessionConfig.Configured(target.db, p.schema, p.owner, Begin(target.base)).0;
    SessionConfig.ConfiguredOverlays(target.db, p.schema, p.owner, Begin(target.base));
    hide SessionConfig.Configured;
    Seeder.SeedSucceeds(target.db, p.schema, p.fixtures, Seeder.Seeded(t0, map[], None));
    hide Seeder.SeedFrom;
    AllAcceptedTransitive(Begin(target.base), t0, Seeding(target, p).tx);
  }

  lemma GateExcludesEffects(target: Target, p: Profile)
    requires target.login.Some? && Preflight.Clear(target.catalog, p, GateConfig(target.login.value))
      && Truthful(target, p)
    ensures NoEffects(target.db, p)
  {
    forall a | a in p.attacks ensures !target.db.effectful(Rel(p, a)) {
      assert Preflight.ClearAttack(target.catalog, p, GateConfig(target.login.value), a);
    }
  }

  lemma PassIsGood(target: Target, p: Profile)
    requires Reports(target, p, Pass) && Truthful(target, p)
    ensures Good(Final(target, p)) && Final(target, p).evidence != [] && NoEffects(target.db, p)
    ensures var t := Seeding(target, p).tx;
      t.status.Active? && t.session.settings == target.base.settings + p.owner.settings
        && AllAccepted(Begin(target.base), t)
    ensures Executed(target, p).tx == Some(Final(target, p).tx)
    ensures Executed(target, p).report.value.operations == Final(target, p).evidence
    ensures Evaluate.AllCovered(Required(p.attacks), Final(target, p).evidence)
  {
    hide *;
    VerdictFromMatrix(target, p, Pass);
    SeedingIsActive(target, p);
    GateExcludesEffects(target, p);
    var findings :| Pass == Verdict(p, findings, Final(target, p).controlOK, Final(target, p).evidence);
    PassEvidence(p, findings, Final(target, p));
  }

  lemma PassEvidence(p: Profile, findings: seq<Finding>, m: Matrix)
    requires Verdict(p, findings, m.controlOK, m.evidence) == Pass && m.failure == None
    ensures Good(m) && m.evidence != [] && Evaluate.AllCovered(Required(p.attacks), m.evidence)
  {
    hide Evaluate.HasSeverity, Evaluate.AllCovered, Evaluate.Unclear;
  }

  lemma FailEvidence(p: Profile, findings: seq<Finding>, m: Matrix) returns (k: nat)
    requires Verdict(p, findings, m.controlOK, m.evidence) == Fail
    ensures m.controlOK && !Evaluate.Unclear(m.evidence) && k < |m.evidence| && Attacks.Leak(m.evidence[k])
  {
    hide Evaluate.HasSeverity, Evaluate.AllCovered;
    k :| 0 <= k < |m.evidence| && !m.evidence[k].denied;
  }

  // ---------- the theorems ----------

  /** What policies see of the owner in the i-th attack's control, and of the adversary in every attack. */
  function OwnerContext(target: Target, p: Profile, i: nat): Context {
    Context(p.owner.role, StartSettings(p, target.base.settings, i) + p.owner.settings)
  }

  function AdversaryContext(target: Target, p: Profile): Context {
    Context(p.adversary.role, target.base.settings + p.owner.settings + p.adversary.settings)
  }

  /** The fixture row an attack is aimed at. */
  ghost function AimedAt(target: Target, p: Profile, a: Attack): Row {
    RowFor(Seeding(target, p).owners, a.table)
  }

  /** `pass` leaves the tables as they were seeded. */
  lemma PassChangesNothing(target: Target, p: Profile)
    requires Reports(target, p, Pass) && Truthful(target, p)
    ensures Executed(target, p).tx.Some?
    ensures Executed(target, p).tx.value.session.tables == Seeding(target, p).tx.session.tables
  {
    PassIsGood(target, p);
    hide Executed, Seeding, MatrixUpTo;
    GoodRun(target.db, p, Seeding(target, p).owners, Seeding(target, p).tx, target.base.settings, |p.attacks|);
  }

  /** `pass` is isolation, and not vacuously: for every attacked operation a stored row has the configured key, the
      owner sees it, and the adversary cannot reach it by that operation; nor any other row with the key. */
  lemma PassIsolates(target: Target, p: Profile, i: nat, op: Operation)
    requires Reports(target, p, Pass) && Truthful(target, p)
    requires i < |p.attacks| && op in p.attacks[i].operations && !op.Insert?
    ensures KeyOperation(op) && Executed(target, p).tx.Some?
    ensures var a := p.attacks[i];
      var stored := Executed(target, p).tx.value.session.Stored(Rel(p, a));
      && (exists row :: row in stored && SqlSafe.KeyMatches(a.primaryKey, AimedAt(target, p, a), row)
            && target.db.CanSee(OwnerContext(target, p, i), Rel(p, a), row)
            && !Can(target.db, op, AdversaryContext(target, p), Rel(p, a), row))
      && forall row :: row in stored && SqlSafe.KeyMatches(a.primaryKey, AimedAt(target, p, a), row)
            ==> !Can(target.db, op, AdversaryContext(target, p), Rel(p, a), row)
  {
    PassIsGood(target, p);
    PassChangesNothing(target, p);
    var owners, start := Seeding(target, p).owners, Seeding(target, p).tx;
    CleanAttackAt(target.db, p, owners, start, target.base.settings, i);
    var a := p.attacks[i];
    var t := MatrixUpTo(target.db, p, owners, start, i).tx;
    var t' := MatrixUpTo(target.db, p, owners, start, i + 1).tx;
    SettingsAreStable(p, target.base.settings, i);
    hide Executed, Seeding, MatrixUpTo, Standing, Good, StartSettings, SqlSafe.KeyMatches;
    CleanIsIsolated(target, p, a, AimedAt(target, p, a), t, t', start.session.tables, OwnerContext(target, p, i), op);
  }

  lemma CleanIsIsolated(target: Target, p: Profile, a: Attack, values: Row, t: Tx, t': Tx, tables: Tables,
          owner: Context, op: Operation)
    requires CleanAttack(target.db, p, a, values, t, t') && t.session.tables == tables
    requires op in a.operations && !op.Insert?
    requires owner == Context(p.owner.role, t.session.settings + p.owner.settings)
    requires AdversaryContext(target, p).settings == t.session.settings + p.owner.settings + p.adversary.settings
    ensures KeyOperation(op)
    ensures var stored := if Rel(p, a) in tables then tables[Rel(p, a)] else [];
      && (exists row :: row in stored && SqlSafe.KeyMatches(a.primaryKey, values, row)
            && target.db.CanSee(owner, Rel(p, a), row)
            && !Can(target.db, op, AdversaryContext(target, p), Rel(p, a), row))
      && forall row :: row in stored && SqlSafe.KeyMatches(a.primaryKey, values, row)
            ==> !Can(target.db, op, AdversaryContext(target, p), Rel(p, a), row)
  {
    var rel := Rel(p, a);
    var s, s' := OwnerSession(p, t.session), AdversarySession(p, t.session);
    assert s.Ctx() == owner && s'.Ctx() == AdversaryContext(target, p);
    var stored := if rel in tables then tables[rel] else [];
    assert s.Stored(rel) == stored && s'.Stored(rel) == stored;
    assert !AnyReached(target.db, op, s', rel, a.primaryKey, values);
    forall row | row in stored && SqlSafe.KeyMatches(a.primaryKey, values, row)
      ensures !Can(target.db, op, AdversaryContext(target, p), rel, row)
    {
      assert !Reached(target.db, op, s', rel, a.primaryKey, values, row);
    }
    var row :| Reached(target.db, Select, s, rel, a.primaryKey, values, row);
  }

  /** In a passing run the server refuses at most one statement: an insert, with 42501, in the last attack; nothing is
      accepted after it. */
  lemma PassRejectsAtMostOnce(target: Target, p: Profile)
    requires Reports(target, p, Pass) && Truthful(target, p)
    ensures p.attacks != [] && Executed(target, p).tx.Some?
    ensures var log := Executed(target, p).tx.value.log;
      || (forall j :: 0 <= j < |log| ==> !log[j].reply.ServerError?)
      || exists k :: OneDenial(log, 0, k)
           && |MatrixUpTo(target.db, p, Seeding(target, p).owners, Seeding(target, p).tx, |p.attacks| - 1).tx.log| <= k
  {
    hide *;
    PassIsGood(target, p);
    SomeAttack(target, p);
    var owners, start := Seeding(target, p).owners, Seeding(target, p).tx;
    var n := |p.attacks|;
    GoodRun(target.db, p, owners, start, target.base.settings, n - 1 + 1);
    CleanAttackAt(target.db, p, owners, start, target.base.settings, n - 1);
    LastStanding(target.db, p, owners, start, n - 1);
    RejectionIsLate(Begin(target.base), start,
      MatrixUpTo(target.db, p, owners, start, n - 1).tx, MatrixUpTo(target.db, p, owners, start, n).tx);
  }

  lemma SomeAttack(target: Target, p: Profile)
    requires Final(target, p).evidence != []
    ensures p.attacks != []
    ensures Final(target, p) == MatrixUpTo(target.db, p, Seeding(target, p).owners, Seeding(target, p).tx, |p.attacks|)
    ensures Begin(target.base).log == []
  {
  }

  /** Every attack starts active, so the rejection belongs to the statements after its start. */
  lemma LastStanding(db: Database, p: Profile, owners: Seeder.OwnerRows, start: Tx, i: nat)
    requires i < |p.attacks| && NoEffects(db, p)
    requires MatrixUpTo(db, p, owners, start, i).tx.status.Active?
    requires Good(MatrixUpTo(db, p, owners, start, i)) && Good(MatrixUpTo(db, p, owners, start, i + 1))
    ensures Standing(MatrixUpTo(db, p, owners, start, i).tx, MatrixUpTo(db, p, owners, start, i + 1).tx)
  {
    var m := MatrixUpTo(db, p, owners, start, i);
    assert MatrixUpTo(db, p, owners, start, i + 1) == MatrixStep(db, p, owners, p.attacks[i], m);
    hide MatrixUpTo, MatrixStep, CleanAttack;
    StandingFromStart(m.tx);
    CleanStep(db, p, owners, p.attacks[i], m, m.tx);
  }

  lemma RejectionIsLate(t0: Tx, start: Tx, last: Tx, final: Tx)
    requires t0.log == [] && AllAccepted(t0, start) && Standing(start, last) && last.status.Active?
      && Standing(last, final)
    ensures
      || (forall j :: 0 <= j < |final.log| ==> !final.log[j].reply.ServerError?)
      || exists k :: OneDenial(final.log, 0, k) && |last.log| <= k
  {
    hide Parse;
    forall j | 0 <= j < |last.log| ensures !last.log[j].reply.ServerError? {
      if j < |start.log| {
        assert last.log[j] == start.log[j];
      }
    }
    assert forall j :: 0 <= j < |last.log| ==> final.log[j] == last.log[j];
    if !final.status.Active? {
      var k :| OneDenial(final.log, |last.log|, k);
      assert OneDenial(final.log, 0, k);
    }
  }

  // ---------- the adversary's context ----------

  lemma AttemptKeepsContext(db: Database, schema: string, a: Attack, row: Row, op: Operation, t: Tx)
    ensures Attacks.Attempt(db, schema, a, row, op, t).0.session.Ctx() == t.session.Ctx()
  {
    hide Parse, Send, RelationOf, Attacks.StatementFor;
    if KeyOperation(op) && Attacks.StatementFor(schema, a, row, op).Ok? {
      var s := Attacks.StatementFor(schema, a, row, op).value;
      Attacks.StatementIsData(schema, a, row, op);
      RowStatementKeepsContext(db, t, s.sql, s.args);
    }
  }

  lemma InsertKeepsContext(db: Database, schema: string, a: Attack, t: Tx)
    ensures Attacks.InsertAttempt(db, schema, a, t).0.session.Ctx() == t.session.Ctx()
  {
    hide SqlSafe.InsertStatement, Parse, Send;
    var built := SqlSafe.InsertStatement(schema, a.table, a.insert, SortedElements(a.insert.Keys));
    if built.Ok? {
      InsertStatementRuns(db, t, schema, a.table, a.insert);
      RowStatementKeepsContext(db, t, built.value.sql, built.value.args);
    }
  }

  lemma {:induction false} RunKeepsContext(db: Database, schema: string, a: Attack, row: Row, ops: seq<Operation>,
          t: Tx)
    ensures Attacks.RunFrom(db, schema, a, row, ops, t).0.session.Ctx() == t.session.Ctx()
    decreases ops
  {
    hide Attacks.Attempt;
    if ops != [] {
      if ops[0] == Insert {
        RunKeepsContext(db, schema, a, row, ops[1..], t);
      } else {
        AttemptKeepsContext(db, schema, a, row, ops[0], t);
        RunKeepsContext(db, schema, a, row, ops[1..], Attacks.Attempt(db, schema, a, row, ops[0], t).0);
      }
    }
  }

  lemma {:induction false} InsertsKeepContext(db: Database, schema: string, a: Attack, ops: seq<Operation>, t: Tx)
    ensures InsertsFrom(db, schema, a, ops, t).0.session.Ctx() == t.session.Ctx()
    decreases ops
  {
    hide Attacks.InsertAttempt;
    if ops != [] {
      if ops[0] != Insert {
        InsertsKeepContext(db, schema, a, ops[1..], t);
      } else {
        InsertKeepsContext(db, schema, a, t);
        InsertsKeepContext(db, schema, a, ops[1..], Attacks.InsertAttempt(db, schema, a, t).0);
      }
    }
  }

  lemma VerifiedKeepsContext(db: Database, schema: string, a: Attack, row: Row, t: Tx)
    ensures Control.Verified(db, schema, a, row, t).0.session.Ctx() == t.session.Ctx()
  {
    if SqlSafe.SelectStatement(schema, a.table, a.primaryKey, row).Ok? {
      var s := SqlSafe.SelectStatement(schema, a.table, a.primaryKey, row).value;
      KeyRead(schema, a.table, a.primaryKey, row);
      hide Parse, Send, SqlSafe.SelectStatement;
      RowStatementKeepsContext(db, t, s.sql, s.args);
    }
  }

  /** The adversary's half of attack i: the transaction in which its operations start, once it could be configured. */
  ghost function AdversaryStart(db: Database, p: Profile, owners: Seeder.OwnerRows, m: Matrix, a: Attack): Option<Tx> {
    var (t, failure) := SessionConfig.Configured(db, p.schema, p.owner, m.tx);
    var (t', ok) := Control.Verified(db, p.schema, a, RowFor(owners, a.table), t);
    var (t2, failure2) := SessionConfig.Configured(db, p.schema, p.adversary, t');
    if failure == None && ok && failure2 == None then Some(t2) else None
  }

  /** Settings on which the owner's and then the adversary's overrides give one fixed result. */
  ghost predicate Aligned(p: Profile, base: map<string, string>, settings: map<string, string>) {
    settings + p.owner.settings + p.adversary.settings == base + p.owner.settings + p.adversary.settings
  }

  lemma AttackedContext(db: Database, p: Profile, a: Attack, row: Row, m: Matrix)
    requires SessionConfig.Configured(db, p.schema, p.adversary, m.tx).1 == None
    ensures var c := Context(p.adversary.role, m.tx.session.settings + p.adversary.settings);
      && SessionConfig.Configured(db, p.schema, p.adversary, m.tx).0.session.Ctx() == c
      && Attacked(db, p, a, row, m).tx.session.Ctx() == c
  {
    var t := SessionConfig.Configured(db, p.schema, p.adversary, m.tx).0;
    SessionConfig.ConfiguredOverlays(db, p.schema, p.adversary, m.tx);
    RunKeepsContext(db, p.schema, a, row, a.operations, t);
    InsertsKeepContext(db, p.schema, a, a.operations, Attacks.RunFrom(db, p.schema, a, row, a.operations, t).0);
    hide SessionConfig.Configured, Attacks.RunFrom, InsertsFrom;
  }

  lemma ControlContext(db: Database, p: Profile, a: Attack, row: Row, m: Matrix)
    requires SessionConfig.Configured(db, p.schema, p.owner, m.tx).1 == None
    ensures var t := SessionConfig.Configured(db, p.schema, p.owner, m.tx).0;
      Control.Verified(db, p.schema, a, row, t).0.session.settings == m.tx.session.settings + p.owner.settings
  {
    var t := SessionConfig.Configured(db, p.schema, p.owner, m.tx).0;
    SessionConfig.ConfiguredOverlays(db, p.schema, p.owner, m.tx);
    VerifiedKeepsContext(db, p.schema, a, row, t);
    assert Control.Verified(db, p.schema, a, row, t).0.session.Ctx().settings == t.session.Ctx().settings;
    hide SessionConfig.Configured, Control.Verified;
  }

  lemma StepStaysAligned(db: Database, p: Profile, owners: Seeder.OwnerRows, a: Attack, m: Matrix,
          base: map<string, string>)
    requires Aligned(p, base, m.tx.session.settings) && m.failure == None
    ensures var start := AdversaryStart(db, p, owners, m, a);
      start.Some? ==> start.value.session.Ctx() == Context(p.adversary.role,
        base + p.owner.settings + p.adversary.settings)
    ensures MatrixStep(db, p, owners, a, m).failure == None ==>
      Aligned(p, base, MatrixStep(db, p, owners, a, m).tx.session.settings)
  {
    hide SessionConfig.Configured, Control.Verified, Attacks.RunFrom, InsertsFrom;
    var row := RowFor(owners, a.table);
    var (t, failure) := SessionConfig.Configured(db, p.schema, p.owner, m.tx);
    if failure == None {
      ControlContext(db, p, a, row, m);
      var (t1, ok) := Control.Verified(db, p.schema, a, row, t);
      AlignedOn(p, base, m.tx.session.settings);
      if ok && SessionConfig.Configured(db, p.schema, p.adversary, t1).1 == None {
        AttackedContext(db, p, a, row, m.(tx := t1));
      }
    }
  }

  lemma AlignedOn(p: Profile, base: map<string, string>, settings: map<string, string>)
    requires Aligned(p, base, settings)
    ensures Aligned(p, base, settings + p.owner.settings)
    ensures Aligned(p, base, settings + p.owner.settings + p.adversary.settings)
  {
  }

  /** Across the alternating calls the adversary's context is the same at every attack, whichever controls failed. */
  lemma {:induction false} AdversaryContextIsFixed(db: Database, p: Profile, owners: Seeder.OwnerRows, start: Tx,
          base: map<string, string>, i: nat)
    requires i < |p.attacks| && start.session.settings == base + p.owner.settings
    requires MatrixUpTo(db, p, owners, start, i).failure == None
    ensures Aligned(p, base, MatrixUpTo(db, p, owners, start, i).tx.session.settings)
    ensures var s := AdversaryStart(db, p, owners, MatrixUpTo(db, p, owners, start, i), p.attacks[i]);
      s.Some? ==> s.value.session.Ctx() == Context(p.adversary.role, base + p.owner.settings + p.adversary.settings)
  {
    hide MatrixStep, AdversaryStart;
    if i > 0 {
      AdversaryContextIsFixed(db, p, owners, start, base, i - 1);
      StepStaysAligned(db, p, owners, p.attacks[i - 1], MatrixUpTo(db, p, owners, start, i - 1), base);
    }
    StepStaysAligned(db, p, owners, p.attacks[i], MatrixUpTo(db, p, owners, start, i), base);
  }

  /** Every owner setting that the adversary does not name was there before, with the same value. */
  predicate OwnerAddsNothing(p: Profile, base: map<string, string>) {
    forall name :: name in p.owner.settings && name !in p.adversary.settings ==>
      name in base && base[name] == p.owner.settings[name]
  }

  lemma OwnerIsOverridden(p: Profile, base: map<string, string>)
    ensures base + p.owner.settings + p.adversary.settings == base + p.adversary.settings
      <==> OwnerAddsNothing(p, base)
  {
    var all, rest := base + p.owner.settings + p.adversary.settings, base + p.adversary.settings;
    if all == rest {
      forall name | name in p.owner.settings && name !in p.adversary.settings
        ensures name in base && base[name] == p.owner.settings[name]
      {
        assert name in all && all[name] == p.owner.settings[name];
      }
    }
  }

  /** At every attack the adversary's context is free of owner values if and only if the owner's settings, but for those
      the adversary names itself, add nothing to the base. */
  lemma NoOwnerValueLeft(db: Database, p: Profile, owners: Seeder.OwnerRows, start: Tx, base: map<string, string>,
          i: nat)
    requires i < |p.attacks| && start.session.settings == base + p.owner.settings
    requires MatrixUpTo(db, p, owners, start, i).failure == None
    ensures var s := AdversaryStart(db, p, owners, MatrixUpTo(db, p, owners, start, i), p.attacks[i]);
      s.Some? ==>
        (s.value.session.Ctx() == Context(p.adversary.role, base + p.adversary.settings) <==> OwnerAddsNothing(p, base))
    ensures p.owner.settings.Keys <= p.adversary.settings.Keys ==> OwnerAddsNothing(p, base)
  {
    hide *;
    AdversaryContextIsFixed(db, p, owners, start, base, i);
    OwnerIsOverridden(p, base);
    if p.owner.settings.Keys <= p.adversary.settings.Keys {
      OwnerIsNamed(p, base);
    }
  }

  lemma OwnerIsNamed(p: Profile, base: map<string, string>)
    requires p.owner.settings.Keys <= p.adversary.settings.Keys
    ensures OwnerAddsNothing(p, base)
  {
  }

  // ---------- coverage ----------

  function Tag(table: string, ops: seq<Operation>, inserts: bool): seq<(string, Operation)>
    decreases ops
  {
    if ops == [] then []
    else if ops[0].Insert? == inserts then [(table, ops[0])] + Tag(table, ops[1..], inserts)
    else Tag(table, ops[1..], inserts)
  }

  /** An attack's evidence: its operations, the inserts moved behind the others, both in their own order. */
  function AttackTags(a: Attack): seq<(string, Operation)> {
    Tag(a.table, a.operations, false) + Tag(a.table, a.operations, true)
  }

  function AllTags(attacks: seq<Attack>): seq<(string, Operation)>
    decreases attacks
  {
    if attacks == [] then [] else AllTags(attacks[..|attacks| - 1]) + AttackTags(attacks[|attacks| - 1])
  }

  function Tags(evidence: seq<Evidence>): (r: seq<(string, Operation)>)
    ensures |r| == |evidence| && forall i :: 0 <= i < |r| ==> r[i] == (evidence[i].table, evidence[i].operation)
  {
    seq(|evidence|, i requires 0 <= i < |evidence| => (evidence[i].table, evidence[i].operation))
  }

  lemma TagsConcat(a: seq<Evidence>, b: seq<Evidence>)
    ensures Tags(a + b) == Tags(a) + Tags(b)
  {
  }

  lemma {:induction false} RunTags(db: Database, schema: string, a: Attack, row: Row, ops: seq<Operation>, t: Tx)
    ensures Tags(Attacks.RunFrom(db, schema, a, row, ops, t).1) == Tag(a.table, ops, false)
    decreases ops
  {
    hide Attacks.Attempt;
    if ops != [] {
      if ops[0] == Insert {
        RunTags(db, schema, a, row, ops[1..], t);
      } else {
        var (t1, e) := Attacks.Attempt(db, schema, a, row, ops[0], t);
        Attacks.AttemptMeans(db, schema, a, row, ops[0], t);
        RunTags(db, schema, a, row, ops[1..], t1);
        TagsConcat([e], Attacks.RunFrom(db, schema, a, row, ops[1..], t1).1);
        assert Tags([e]) == [(a.table, ops[0])];
      }
    }
  }

  lemma {:induction false} InsertTags(db: Database, schema: string, a: Attack, ops: seq<Operation>, t: Tx)
    ensures Tags(InsertsFrom(db, schema, a, ops, t).1) == Tag(a.table, ops, true)
    decreases ops
  {
    hide Attacks.InsertAttempt;
    if ops != [] {
      if ops[0] != Insert {
        InsertTags(db, schema, a, ops[1..], t);
      } else {
        var (t1, e) := Attacks.InsertAttempt(db, schema, a, t);
        Attacks.InsertMeans(db, schema, a, t);
        InsertTags(db, schema, a, ops[1..], t1);
        TagsConcat([e], InsertsFrom(db, schema, a, ops[1..], t1).1);
        assert Tags([e]) == [(a.table, ops[0])];
      }
    }
  }

  lemma StepTags(db: Database, p: Profile, owners: Seeder.OwnerRows, a: Attack, m: Matrix)
    requires m.failure == None && MatrixStep(db, p, owners, a, m).failure == None
      && MatrixStep(db, p, owners, a, m).controlOK
    ensures m.controlOK && Tags(MatrixStep(db, p, owners, a, m).evidence) == Tags(m.evidence) + AttackTags(a)
  {
    hide SessionConfig.Configured, Control.Verified, Attacks.RunFrom, InsertsFrom, Tag;
    var row := RowFor(owners, a.table);
    var t := SessionConfig.Configured(db, p.schema, p.owner, m.tx).0;
    var t1 := Control.Verified(db, p.schema, a, row, t).0;
    var t2 := SessionConfig.Configured(db, p.schema, p.adversary, t1).0;
    var (t3, e1) := Attacks.RunFrom(db, p.schema, a, row, a.operations, t2);
    var (t4, e2) := InsertsFrom(db, p.schema, a, a.operations, t3);
    RunTags(db, p.schema, a, row, a.operations, t2);
    InsertTags(db, p.schema, a, a.operations, t3);
    TagsConcat(m.evidence + e1, e2);
    TagsConcat(m.evidence, e1);
    assert Tags(m.evidence) + Tags(e1) + Tags(e2) == Tags(m.evidence) + AttackTags(a);
  }

  /** When every control succeeds, the evidence is exactly the attacks' operations, in order. */
  lemma {:induction false} EvidenceIsComplete(db: Database, p: Profile, owners: Seeder.OwnerRows, start: Tx, n: nat)
    requires n <= |p.attacks| && MatrixUpTo(db, p, owners, start, n).failure == None
      && MatrixUpTo(db, p, owners, start, n).controlOK
    ensures Tags(MatrixUpTo(db, p, owners, start, n).evidence) == AllTags(p.attacks[..n])
  {
    hide MatrixStep, AttackTags;
    if n > 0 {
      var m := MatrixUpTo(db, p, owners, start, n - 1);
      StepTags(db, p, owners, p.attacks[n - 1], m);
      EvidenceIsComplete(db, p, owners, start, n - 1);
      assert p.attacks[..n][..n - 1] == p.attacks[..n - 1];
    }
  }

  /** The operations of the attacks whose controls succeeded, among the first n. */
  ghost function TriedUpTo(db: Database, p: Profile, owners: Seeder.OwnerRows, start: Tx, n: nat): seq<(string,
          Operation)>
    requires n <= |p.attacks|
  {
    if n == 0 then []
    else
      (TriedUpTo(db, p, owners, start, n - 1)
       + if ControlAt(db, p, owners, start, n - 1) then AttackTags(p.attacks[n - 1]) else [])
  }

  lemma StepTries(db: Database, p: Profile, owners: Seeder.OwnerRows, a: Attack, m: Matrix)
    requires m.failure == None && MatrixStep(db, p, owners, a, m).failure == None
    ensures Tags(MatrixStep(db, p, owners, a, m).evidence) == Tags(m.evidence)
      + if ControlPasses(db, p, a, RowFor(owners, a.table), m.tx) then AttackTags(a) else []
  {
    hide SessionConfig.Configured, Control.Verified, Attacks.RunFrom, InsertsFrom, Tag;
    var row := RowFor(owners, a.table);
    var t := SessionConfig.Configured(db, p.schema, p.owner, m.tx).0;
    var t1 := Control.Verified(db, p.schema, a, row, t).0;
    var t2 := SessionConfig.Configured(db, p.schema, p.adversary, t1).0;
    var (t3, e1) := Attacks.RunFrom(db, p.schema, a, row, a.operations, t2);
    var (t4, e2) := InsertsFrom(db, p.schema, a, a.operations, t3);
    RunTags(db, p.schema, a, row, a.operations, t2);
    InsertTags(db, p.schema, a, a.operations, t3);
    TagsConcat(m.evidence + e1, e2);
    TagsConcat(m.evidence, e1);
    assert Tags(m.evidence) + Tags(e1) + Tags(e2) == Tags(m.evidence) + AttackTags(a);
  }

  /** A control that fails costs its own attack's evidence and no other: the evidence is, in order, the operations of
      the attacks whose controls succeeded. */
  lemma {:induction false} EvidenceFollowsControls(db: Database, p: Profile, owners: Seeder.OwnerRows, start: Tx,
          n: nat)
    requires n <= |p.attacks| && forall i :: 0 <= i < n ==> FailureAt(db, p, owners, start, i) == None
    ensures Tags(MatrixUpTo(db, p, owners, start, n).evidence) == TriedUpTo(db, p, owners, start, n)
  {
    hide MatrixStep, AttackTags, FailureAt, ControlPasses;
    if n > 0 {
      EvidenceFollowsControls(db, p, owners, start, n - 1);
      MatrixGoesOn(db, p, owners, start, n - 1);
      MatrixGoesOn(db, p, owners, start, n);
      StepTries(db, p, owners, p.attacks[n - 1], MatrixUpTo(db, p, owners, start, n - 1));
    }
  }

  lemma {:induction false} TagFinds(table: string, ops: seq<Operation>, op: Operation)
    requires op in ops
    ensures (table, op) in Tag(table, ops, op.Insert?)
    decreases ops
  {
    if ops[0] != op {
      TagFinds(table, ops[1..], op);
    }
  }

  lemma {:induction false} AllTagsFind(attacks: seq<Attack>, a: Attack, op: Operation)
    requires a in attacks && op in a.operations
    ensures (a.table, op) in AllTags(attacks)
    decreases attacks
  {
    var last := |attacks| - 1;
    TagFinds(a.table, a.operations, op);
    assert attacks == attacks[..last] + [attacks[last]];
    if a in attacks[..last] {
      AllTagsFind(attacks[..last], a, op);
    }
  }

  lemma PassTags(target: Target, p: Profile)
    requires Good(Final(target, p))
    ensures Tags(Final(target, p).evidence) == AllTags(p.attacks) && DeniedAll(Final(target, p).evidence)
    ensures forall e :: e in Final(target, p).evidence ==> e.denied
  {
    hide Final, AllTags, Tags;
    CompleteTags(target, p);
  }

  /** `pass` has denied evidence for each operation of each table, though the verdict checks coverage by operation
      only. */
  lemma PassCovers(target: Target, p: Profile, a: Attack, op: Operation)
    requires Reports(target, p, Pass) && Truthful(target, p) && a in p.attacks && op in a.operations
    ensures exists e ::
      e in Executed(target, p).report.value.operations && e.table == a.table && e.operation == op && e.denied
  {
    hide *;
    PassIsGood(target, p);
    PassTags(target, p);
    AllTagsFind(p.attacks, a, op);
    var evidence := Final(target, p).evidence;
    var i :| 0 <= i < |Tags(evidence)| && Tags(evidence)[i] == (a.table, op);
    assert evidence[i] in evidence;
  }

  // ---------- the log only grows ----------

  lemma AttemptLogs(db: Database, schema: string, a: Attack, row: Row, op: Operation, t: Tx)
    ensures t.log <= Attacks.Attempt(db, schema, a, row, op, t).0.log
    ensures t.log <= Attacks.InsertAttempt(db, schema, a, t).0.log
  {
    hide Attacks.StatementFor, SqlSafe.InsertStatement;
  }

  lemma {:induction false} RunLogs(db: Database, schema: string, a: Attack, row: Row, ops: seq<Operation>, t: Tx)
    ensures t.log <= Attacks.RunFrom(db, schema, a, row, ops, t).0.log
    decreases ops
  {
    hide Attacks.Attempt;
    if ops != [] {
      if ops[0] == Insert {
        RunLogs(db, schema, a, row, ops[1..], t);
      } else {
        AttemptLogs(db, schema, a, row, ops[0], t);
        RunLogs(db, schema, a, row, ops[1..], Attacks.Attempt(db, schema, a, row, ops[0], t).0);
      }
    }
  }

  lemma {:induction false} InsertsLog(db: Database, schema: string, a: Attack, ops: seq<Operation>, t: Tx)
    ensures t.log <= InsertsFrom(db, schema, a, ops, t).0.log
    decreases ops
  {
    hide Attacks.InsertAttempt;
    if ops != [] {
      if ops[0] != Insert {
        InsertsLog(db, schema, a, ops[1..], t);
      } else {
        AttemptLogs(db, schema, a, map[], Select, t);
        InsertsLog(db, schema, a, ops[1..], Attacks.InsertAttempt(db, schema, a, t).0);
      }
    }
  }

  lemma {:induction false} SettingsLog(db: Database, names: seq<string>, settings: map<string, string>, t: Tx)
    requires forall n :: n in names ==> n in settings
    ensures t.log <= SessionConfig.SetFrom(db, names, settings, t).0.log
    decreases names
  {
    hide Send;
    if names != [] {
      var next := Send(db, t, SET_CONFIG_TEXT, SessionConfig.Binding(names[0], settings[names[0]]));
      SettingsLog(db, names[1..], settings, next);
    }
  }

  lemma ConfiguredLogs(db: Database, schema: string, identity: Identity, t: Tx)
    ensures t.log <= SessionConfig.Configured(db, schema, identity, t).0.log
  {
    hide Send, SessionConfig.SetFrom, IsIdentifier, SortedElements, SearchPathText, RoleText;
    SortedElementsMembers(identity.settings.Keys);
    var t2 := Send(db, Send(db, t, SearchPathText(schema), []), RoleText(identity.role), []);
    SettingsLog(db, SortedElements(identity.settings.Keys), identity.settings, t2);
  }

  lemma AttackedLogs(db: Database, p: Profile, a: Attack, row: Row, m: Matrix)
    ensures m.tx.log <= Attacked(db, p, a, row, m).tx.log
  {
    hide SessionConfig.Configured, Attacks.RunFrom, InsertsFrom;
    var t := SessionConfig.Configured(db, p.schema, p.adversary, m.tx).0;
    ConfiguredLogs(db, p.schema, p.adversary, m.tx);
    RunLogs(db, p.schema, a, row, a.operations, t);
    InsertsLog(db, p.schema, a, a.operations, Attacks.RunFrom(db, p.schema, a, row, a.operations, t).0);
  }

  lemma ControlLogs(db: Database, p: Profile, a: Attack, row: Row, t: Tx)
    ensures t.log <= Control.Verified(db, p.schema, a, row, SessionConfig.Configured(db, p.schema, p.owner, t).0).0.log
  {
    hide SessionConfig.Configured, SqlSafe.SelectStatement;
    ConfiguredLogs(db, p.schema, p.owner, t);
  }

  lemma StepLogs(db: Database, p: Profile, owners: Seeder.OwnerRows, a: Attack, m: Matrix)
    ensures m.tx.log <= MatrixStep(db, p, owners, a, m).tx.log
  {
    hide SessionConfig.Configured, Control.Verified, Attacked;
    var row := RowFor(owners, a.table);
    ConfiguredLogs(db, p.schema, p.owner, m.tx);
    ControlLogs(db, p, a, row, m.tx);
    var t := SessionConfig.Configured(db, p.schema, p.owner, m.tx).0;
    AttackedLogs(db, p, a, row, m.(tx := Control.Verified(db, p.schema, a, row, t).0));
  }

  // ---------- what `fail` means ----------

  /** Entry k of the log is the evidence's own statement, accepted in the given context, and it got through. */
  ghost predicate AccessAt(db: Database, p: Profile, a: Attack, row: Row, e: Evidence, c: Context, log: seq<Entry>,
          k: int) {
    0 <= k < |log| && log[k].before.Ctx() == c && Attacks.Access(db, p.schema, a, row, e, log[k])
  }

  lemma AccessStays(db: Database, p: Profile, a: Attack, row: Row, e: Evidence, c: Context, log: seq<Entry>,
          longer: seq<Entry>, k: int)
    requires AccessAt(db, p, a, row, e, c, log, k) && log <= longer
    ensures AccessAt(db, p, a, row, e, c, longer, k)
  {
    hide Attacks.Access;
  }

  lemma {:induction false} LeakInRun(db: Database, p: Profile, a: Attack, row: Row, ops: seq<Operation>, t: Tx,
          e: Evidence)
    returns (k: nat)
    requires e in Attacks.RunFrom(db, p.schema, a, row, ops, t).1 && Attacks.Leak(e) && e.operation.Valid()
    ensures e.operation in ops
    ensures AccessAt(db, p, a, row, e, t.session.Ctx(), Attacks.RunFrom(db, p.schema, a, row, ops, t).0.log, k)
    decreases ops
  {
    hide Attacks.Attempt, AnyReached, Attacks.Access;
    assert ops != [];
    if ops[0] == Insert {
      k := LeakInRun(db, p, a, row, ops[1..], t, e);
    } else {
      var (t1, first) := Attacks.Attempt(db, p.schema, a, row, ops[0], t);
      if e == first {
        Attacks.AttemptMeans(db, p.schema, a, row, ops[0], t);
        Attacks.AttemptIsAccess(db, p.schema, a, row, ops[0], t);
        k := |t.log|;
        RunLogs(db, p.schema, a, row, ops[1..], t1);
        AccessStays(db, p, a, row, e, t.session.Ctx(), t1.log,
          Attacks.RunFrom(db, p.schema, a, row, ops[1..], t1).0.log, k);
      } else {
        AttemptKeepsContext(db, p.schema, a, row, ops[0], t);
        k := LeakInRun(db, p, a, row, ops[1..], t1, e);
      }
    }
  }

  lemma {:induction false} LeakInInserts(db: Database, p: Profile, a: Attack, row: Row, ops: seq<Operation>, t: Tx,
          e: Evidence)
    returns (k: nat)
    requires e in InsertsFrom(db, p.schema, a, ops, t).1 && Attacks.Leak(e)
    ensures e.operation == Insert && Insert in ops
    ensures AccessAt(db, p, a, row, e, t.session.Ctx(), InsertsFrom(db, p.schema, a, ops, t).0.log, k)
    decreases ops
  {
    hide Attacks.InsertAttempt, Attacks.Access;
    assert ops != [];
    if ops[0] != Insert {
      k := LeakInInserts(db, p, a, row, ops[1..], t, e);
    } else {
      var (t1, first) := Attacks.InsertAttempt(db, p.schema, a, t);
      if e == first {
        Attacks.InsertMeans(db, p.schema, a, t);
        Attacks.InsertIsAccess(db, p.schema, a, row, t);
        k := |t.log|;
        InsertsLog(db, p.schema, a, ops[1..], t1);
        AccessStays(db, p, a, row, e, t.session.Ctx(), t1.log, InsertsFrom(db, p.schema, a, ops[1..], t1).0.log, k);
      } else {
        InsertKeepsContext(db, p.schema, a, t);
        k := LeakInInserts(db, p, a, row, ops[1..], t1, e);
      }
    }
  }

  lemma LeakInAttacked(db: Database, p: Profile, a: Attack, row: Row, m: Matrix, e: Evidence) returns (k: nat)
    requires e in Attacked(db, p, a, row, m).evidence && e !in m.evidence && Attacks.Leak(e) && e.operation.Valid()
    ensures SessionConfig.Configured(db, p.schema, p.adversary, m.tx).1 == None && e.operation in a.operations
    ensures var t := SessionConfig.Configured(db, p.schema, p.adversary, m.tx).0;
      AccessAt(db, p, a, row, e, t.session.Ctx(), Attacked(db, p, a, row, m).tx.log, k)
  {
    hide SessionConfig.Configured, Attacks.RunFrom, InsertsFrom, AccessAt;
    var t := SessionConfig.Configured(db, p.schema, p.adversary, m.tx).0;
    var (t1, e1) := Attacks.RunFrom(db, p.schema, a, row, a.operations, t);
    var (t2, e2) := InsertsFrom(db, p.schema, a, a.operations, t1);
    assert e in m.evidence + e1 + e2;
    if e in e1 {
      k := LeakInRun(db, p, a, row, a.operations, t, e);
      InsertsLog(db, p.schema, a, a.operations, t1);
      AccessStays(db, p, a, row, e, t.session.Ctx(), t1.log, t2.log, k);
    } else {
      RunKeepsContext(db, p.schema, a, row, a.operations, t);
      k := LeakInInserts(db, p, a, row, a.operations, t1, e);
    }
  }

  lemma LeakInStep(db: Database, p: Profile, owners: Seeder.OwnerRows, a: Attack, m: Matrix,
          e: Evidence) returns (k: nat)
    requires e in MatrixStep(db, p, owners, a, m).evidence && e !in m.evidence && Attacks.Leak(e) && e.operation.Valid()
    ensures AdversaryStart(db, p, owners, m, a).Some? && e.operation in a.operations
    ensures var c := AdversaryStart(db, p, owners, m, a).value.session.Ctx();
      AccessAt(db, p, a, RowFor(owners, a.table), e, c, MatrixStep(db, p, owners, a, m).tx.log, k)
  {
    hide SessionConfig.Configured, Control.Verified, Attacked, AccessAt;
    var row := RowFor(owners, a.table);
    var t := SessionConfig.Configured(db, p.schema, p.owner, m.tx).0;
    var t' := Control.Verified(db, p.schema, a, row, t).0;
    k := LeakInAttacked(db, p, a, row, m.(tx := t'), e);
  }

  lemma {:induction false} LeakInMatrix(db: Database, p: Profile, owners: Seeder.OwnerRows, start: Tx,
        base: map<string, string>, n: nat, e: Evidence)
    returns (i: nat, k: nat)
    requires n <= |p.attacks| && start.session.settings == base + p.owner.settings
    requires MatrixUpTo(db, p, owners, start, n).failure == None
    requires e in MatrixUpTo(db, p, owners, start, n).evidence && Attacks.Leak(e) && e.operation.Valid()
    ensures i < n && e.operation in p.attacks[i].operations
    ensures var c := Context(p.adversary.role, base + p.owner.settings + p.adversary.settings);
      AccessAt(db, p, p.attacks[i], RowFor(owners, p.attacks[i].table), e, c,
        MatrixUpTo(db, p, owners, start, n).tx.log, k)
  {
    hide MatrixStep, AdversaryStart, AccessAt;
    assert n > 0;
    var m := MatrixUpTo(db, p, owners, start, n - 1);
    if e in m.evidence {
      i, k := LeakInMatrix(db, p, owners, start, base, n - 1, e);
      StepLogs(db, p, owners, p.attacks[n - 1], m);
      AccessStays(db, p, p.attacks[i], RowFor(owners, p.attacks[i].table), e,
        Context(p.adversary.role, base + p.owner.settings + p.adversary.settings),
        m.tx.log, MatrixUpTo(db, p, owners, start, n).tx.log, k);
    } else {
      i := n - 1;
      AdversaryContextIsFixed(db, p, owners, start, base, i);
      k := LeakInStep(db, p, owners, p.attacks[i], m, e);
    }
  }

  lemma FinalMatrix(target: Target, p: Profile)
    ensures Final(target, p) == MatrixUpTo(target.db, p, Seeding(target, p).owners, Seeding(target, p).tx, |p.attacks|)
  {
  }

  lemma AdversaryContextIs(target: Target, p: Profile)
    ensures AdversaryContext(target, p)
      == Context(p.adversary.role, target.base.settings + p.owner.settings + p.adversary.settings)
    ensures forall a :: AimedAt(target, p, a) == RowFor(Seeding(target, p).owners, a.table)
  {
    hide Seeding, RowFor;
  }

  /** The reported evidence is an access by attack i: entry k of the run's log. */
  ghost predicate AccessOf(target: Target, p: Profile, e: Evidence, i: int, k: int) {
    && 0 <= i < |p.attacks| && e.operation in p.attacks[i].operations && Executed(target, p).tx.Some?
    && AccessAt(target.db, p, p.attacks[i], AimedAt(target, p, p.attacks[i]), e, AdversaryContext(target, p),
      Executed(target, p).tx.value.log, k)
  }

  /** In a completed run each leak of a supported operation is an access: a statement of that operation, accepted by the
      server in the adversary's context, that reached a stored row or whose row the policy admitted. */
  lemma LeakIsAccess(target: Target, p: Profile, e: Evidence) returns (i: nat, k: nat)
    requires Reports(target, p, Fail)
    requires e in Executed(target, p).report.value.operations && Attacks.Leak(e) && e.operation.Valid()
    ensures AccessOf(target, p, e, i, k)
  {
    hide *;
    VerdictFromMatrix(target, p, Fail);
    SeedingIsActive(target, p);
    FinalMatrix(target, p);
    AdversaryContextIs(target, p);
    i, k := LeakInMatrix(target.db, p, Seeding(target, p).owners, Seeding(target, p).tx, target.base.settings,
      |p.attacks|, e);
    AccessFound(target, p, e, i, k);
  }

  lemma AccessFound(target: Target, p: Profile, e: Evidence, i: nat, k: nat)
    requires i < |p.attacks| && e.operation in p.attacks[i].operations && Executed(target, p).tx.Some?
    requires AccessAt(target.db, p, p.attacks[i], AimedAt(target, p, p.attacks[i]), e, AdversaryContext(target, p),
      Executed(target, p).tx.value.log, k)
    ensures AccessOf(target, p, e, i, k)
  {
    hide Executed, AccessAt, AimedAt, AdversaryContext;
  }

  /** `fail` is a real access: every control had succeeded, no evidence was unclear, and some statement of the profile
      was accepted in the adversary's context and got through. */
  lemma FailIsAccess(target: Target, p: Profile) returns (e: Evidence, i: nat, k: nat)
    requires Reports(target, p, Fail) && AllSupported(p)
    ensures Final(target, p).controlOK && !Evaluate.Unclear(Final(target, p).evidence)
    ensures e in Executed(target, p).report.value.operations && Attacks.Leak(e) && AccessOf(target, p, e, i, k)
  {
    e := FailHasLeak(target, p);
    var a := EvidenceHasAttack(target, p, Fail, e);
    i, k := LeakIsAccess(target, p, e);
  }

  lemma FailHasLeak(target: Target, p: Profile) returns (e: Evidence)
    requires Reports(target, p, Fail)
    ensures Final(target, p).failure == None && Final(target, p).controlOK
      && !Evaluate.Unclear(Final(target, p).evidence)
    ensures Executed(target, p).report.value.operations == Final(target, p).evidence
    ensures e in Final(target, p).evidence && Attacks.Leak(e)
  {
    hide *;
    VerdictFromMatrix(target, p, Fail);
    var findings :| Fail == Verdict(p, findings, Final(target, p).controlOK, Final(target, p).evidence);
    var k := FailEvidence(p, findings, Final(target, p));
    e := Final(target, p).evidence[k];
  }

  /** Evidence comes from an operation that some attack lists. */
  lemma EvidenceHasAttack(target: Target, p: Profile, o: Outcome, e: Evidence) returns (a: Attack)
    requires Reports(target, p, o) && (o == Pass || o == Fail) && Final(target, p).controlOK
    requires e in Executed(target, p).report.value.operations
    ensures a in p.attacks && e.operation in a.operations && e.table == a.table
  {
    hide *;
    VerdictFromMatrix(target, p, o);
    CompleteTags(target, p);
    var k :| 0 <= k < |Final(target, p).evidence| && Final(target, p).evidence[k] == e;
    TagAt(Final(target, p).evidence, k);
    a := TagHasAttack(p.attacks, (e.table, e.operation));
  }

  lemma TagAt(evidence: seq<Evidence>, k: nat)
    requires k < |evidence|
    ensures (evidence[k].table, evidence[k].operation) in Tags(evidence)
  {
    assert Tags(evidence)[k] == (evidence[k].table, evidence[k].operation);
  }

  lemma {:induction false} TagListed(table: string, ops: seq<Operation>, inserts: bool, tag: (string, Operation))
    requires tag in Tag(table, ops, inserts)
    ensures tag.0 == table && tag.1 in ops
    decreases ops
  {
    if ops[0].Insert? != inserts || tag != (table, ops[0]) {
      TagListed(table, ops[1..], inserts, tag);
    }
  }

  lemma {:induction false} TagHasAttack(attacks: seq<Attack>, tag: (string, Operation)) returns (a: Attack)
    requires tag in AllTags(attacks)
    ensures a in attacks && tag.0 == a.table && tag.1 in a.operations
    decreases attacks
  {
    var last := |attacks| - 1;
    if tag in AllTags(attacks[..last]) {
      a := TagHasAttack(attacks[..last], tag);
    } else {
      a := attacks[last];
      if tag in Tag(a.table, a.operations, false) {
        TagListed(a.table, a.operations, false, tag);
      } else {
        TagListed(a.table, a.operations, true, tag);
      }
    }
  }

  lemma CompleteTags(target: Target, p: Profile)
    requires Final(target, p).failure == None && Final(target, p).controlOK
    ensures Tags(Final(target, p).evidence) == AllTags(p.attacks)
  {
    hide Seeding, MatrixUpTo, AllTags, Tags;
    EvidenceIsComplete(target.db, p, Seeding(target, p).owners, Seeding(target, p).tx, |p.attacks|);
    assert p.attacks[..|p.attacks|] == p.attacks;
  }

  /** The evidence of an unsupported operation is blank: nothing was sent for it. */
  predicate UnsupportedIsBlank(evidence: seq<Evidence>) {
    forall e :: e in evidence && !e.operation.Valid() ==> e == Attacks.Blank(e.table, e.operation)
  }

  lemma {:induction false} BlankInRun(db: Database, schema: string, a: Attack, row: Row, ops: seq<Operation>, t: Tx)
    ensures UnsupportedIsBlank(Attacks.RunFrom(db, schema, a, row, ops, t).1)
    decreases ops
  {
    hide Attacks.StatementFor, Attacks.Sent;
    if ops != [] {
      if ops[0] == Insert {
        BlankInRun(db, schema, a, row, ops[1..], t);
      } else {
        Attacks.AttemptMeans(db, schema, a, row, ops[0], t);
        BlankInRun(db, schema, a, row, ops[1..], Attacks.Attempt(db, schema, a, row, ops[0], t).0);
      }
    }
  }

  lemma {:induction false} BlankInInserts(db: Database, schema: string, a: Attack, ops: seq<Operation>, t: Tx)
    ensures UnsupportedIsBlank(InsertsFrom(db, schema, a, ops, t).1)
    decreases ops
  {
    hide Attacks.InsertAttempt;
    if ops != [] {
      if ops[0] != Insert {
        BlankInInserts(db, schema, a, ops[1..], t);
      } else {
        Attacks.InsertMeans(db, schema, a, t);
        BlankInInserts(db, schema, a, ops[1..], Attacks.InsertAttempt(db, schema, a, t).0);
      }
    }
  }

  lemma BlankInStep(db: Database, p: Profile, owners: Seeder.OwnerRows, a: Attack, m: Matrix)
    requires UnsupportedIsBlank(m.evidence)
    ensures UnsupportedIsBlank(MatrixStep(db, p, owners, a, m).evidence)
  {
    hide SessionConfig.Configured, Control.Verified, Attacks.RunFrom, InsertsFrom;
    var row := RowFor(owners, a.table);
    var t := SessionConfig.Configured(db, p.schema, p.owner, m.tx).0;
    var t1 := Control.Verified(db, p.schema, a, row, t).0;
    var t2 := SessionConfig.Configured(db, p.schema, p.adversary, t1).0;
    BlankInRun(db, p.schema, a, row, a.operations, t2);
    BlankInInserts(db, p.schema, a, a.operations, Attacks.RunFrom(db, p.schema, a, row, a.operations, t2).0);
  }

  lemma {:induction false} BlankInMatrix(db: Database, p: Profile, owners: Seeder.OwnerRows, start: Tx, n: nat)
    requires n <= |p.attacks|
    ensures UnsupportedIsBlank(MatrixUpTo(db, p, owners, start, n).evidence)
  {
    hide MatrixStep;
    if n > 0 {
      BlankInMatrix(db, p, owners, start, n - 1);
      BlankInStep(db, p, owners, p.attacks[n - 1], MatrixUpTo(db, p, owners, start, n - 1));
    }
  }

  /** Exactly when every leak behind a `fail` is an access: when the profile lists supported operations only.  Any other
      operation leaves evidence that is neither denied nor failed, and nothing was sent for it. */
  lemma LeaksAreAccessesIff(target: Target, p: Profile)
    requires Reports(target, p, Fail)
    ensures AllSupported(p) <==>
      forall e :: e in Executed(target, p).report.value.operations && Attacks.Leak(e) ==>
          exists i, k :: AccessOf(target, p, e, i, k)
  {
    var _ := FailHasLeak(target, p);
    hide *;
    assert forall a, op :: a in p.attacks && op in a.operations && !op.Valid() ==> !AllSupported(p) by {
      Supports(p);
    }
    if AllSupported(p) {
      forall e | e in Executed(target, p).report.value.operations && Attacks.Leak(e)
        ensures exists i, k :: AccessOf(target, p, e, i, k)
      {
        var a := EvidenceHasAttack(target, p, Fail, e);
        Supports(p);
        var i, k := LeakIsAccess(target, p, e);
      }
    } else {
      var e := UnsupportedLeaks(target, p);
    }
  }

  lemma Supports(p: Profile)
    ensures AllSupported(p) <==> forall a, op :: a in p.attacks && op in a.operations ==> op.Valid()
  {
  }

  /** The leak of an unsupported operation is no access. */
  lemma UnsupportedLeaks(target: Target, p: Profile) returns (e: Evidence)
    requires Reports(target, p, Fail) && !AllSupported(p)
    ensures e in Executed(target, p).report.value.operations && Attacks.Leak(e) && e.template == ""
    ensures forall i, k :: !AccessOf(target, p, e, i, k)
  {
    Supports(p);
    var _ := FailHasLeak(target, p);
    hide *;
    var a, op :| a in p.attacks && op in a.operations && !op.Valid();
    CompleteTags(target, p);
    AllTagsFind(p.attacks, a, op);
    FinalMatrix(target, p);
    BlankInMatrix(target.db, p, Seeding(target, p).owners, Seeding(target, p).tx, |p.attacks|);
    e := TaggedEvidence(Final(target, p).evidence, (a.table, op));
    NoAccess(target, p, e);
  }

  lemma TaggedEvidence(evidence: seq<Evidence>, tag: (string, Operation)) returns (e: Evidence)
    requires tag in Tags(evidence) && UnsupportedIsBlank(evidence) && !tag.1.Valid()
    ensures e in evidence && e.operation == tag.1 && Attacks.Leak(e) && e.template == ""
  {
    var i :| 0 <= i < |Tags(evidence)| && Tags(evidence)[i] == tag;
    e := evidence[i];
  }

  lemma NoAccess(target: Target, p: Profile, e: Evidence)
    requires !e.operation.Valid()
    ensures forall i, k :: !AccessOf(target, p, e, i, k)
  {
    hide Executed, AimedAt, AdversaryContext;
  }

  // ---------- inserts of a passing run ----------

  ghost predicate RefusalAt(p: Profile, a: Attack, c: Context, log: seq<Entry>, k: int) {
    0 <= k < |log| && log[k].before.Ctx() == c && Attacks.RefusedInsert(p.schema, a, log[k])
  }

  lemma {:induction false} InsertsRefused(db: Database, p: Profile, a: Attack, ops: seq<Operation>,
          t: Tx) returns (k: nat)
    requires Insert in ops && DeniedAll(InsertsFrom(db, p.schema, a, ops, t).1)
    ensures RefusalAt(p, a, t.session.Ctx(), InsertsFrom(db, p.schema, a, ops, t).0.log, k)
    decreases ops
  {
    hide Attacks.InsertAttempt, Attacks.RefusedInsert;
    if ops[0] != Insert {
      k := InsertsRefused(db, p, a, ops[1..], t);
    } else {
      var (t1, e) := Attacks.InsertAttempt(db, p.schema, a, t);
      DeniedCons(e, InsertsFrom(db, p.schema, a, ops[1..], t1).1);
      Attacks.DeniedIsRefused(db, p.schema, a, t);
      k := |t.log|;
      InsertsLog(db, p.schema, a, ops[1..], t1);
    }
  }

  lemma AttackedRefuses(db: Database, p: Profile, a: Attack, row: Row, m: Matrix) returns (k: nat)
    requires Insert in a.operations && Good(Attacked(db, p, a, row, m))
    ensures var t := SessionConfig.Configured(db, p.schema, p.adversary, m.tx).0;
      RefusalAt(p, a, t.session.Ctx(), Attacked(db, p, a, row, m).tx.log, k)
  {
    hide SessionConfig.Configured, Attacks.RunFrom, InsertsFrom, RefusalAt;
    var t := SessionConfig.Configured(db, p.schema, p.adversary, m.tx).0;
    var (t1, e1) := Attacks.RunFrom(db, p.schema, a, row, a.operations, t);
    DeniedConcat(m.evidence + e1, InsertsFrom(db, p.schema, a, a.operations, t1).1);
    RunKeepsContext(db, p.schema, a, row, a.operations, t);
    k := InsertsRefused(db, p, a, a.operations, t1);
  }

  lemma StepRefuses(db: Database, p: Profile, owners: Seeder.OwnerRows, a: Attack, m: Matrix) returns (k: nat)
    requires m.failure == None && Insert in a.operations && Good(MatrixStep(db, p, owners, a, m))
    ensures AdversaryStart(db, p, owners, m, a).Some?
    ensures RefusalAt(p, a, AdversaryStart(db, p, owners, m, a).value.session.Ctx(),
      MatrixStep(db, p, owners, a, m).tx.log, k)
  {
    hide SessionConfig.Configured, Control.Verified, RefusalAt, Attacks.RunFrom, InsertsFrom;
    var row := RowFor(owners, a.table);
    var t := SessionConfig.Configured(db, p.schema, p.owner, m.tx).0;
    k := AttackedRefuses(db, p, a, row, m.(tx := Control.Verified(db, p.schema, a, row, t).0));
  }

  lemma {:induction false} MatrixLogs(db: Database, p: Profile, owners: Seeder.OwnerRows, start: Tx, i: nat, n: nat)
    requires i <= n <= |p.attacks|
    ensures MatrixUpTo(db, p, owners, start, i).tx.log <= MatrixUpTo(db, p, owners, start, n).tx.log
    decreases n - i
  {
    hide MatrixStep;
    if i < n {
      MatrixLogs(db, p, owners, start, i, n - 1);
      StepLogs(db, p, owners, p.attacks[n - 1], MatrixUpTo(db, p, owners, start, n - 1));
    }
  }

  /** Each attack of a `pass` that lists an insert has its own insert in the log, sent in the adversary's context and
      refused with 42501, or lost on the way. */
  lemma PassRefusesInserts(target: Target, p: Profile, i: nat) returns (k: nat)
    requires Reports(target, p, Pass) && Truthful(target, p) && i < |p.attacks| && Insert in p.attacks[i].operations
    ensures Executed(target, p).tx.Some?
    ensures RefusalAt(p, p.attacks[i], AdversaryContext(target, p), Executed(target, p).tx.value.log, k)
  {
    hide *;
    PassIsGood(target, p);
    FinalMatrix(target, p);
    AdversaryContextIs(target, p);
    var owners, start, n := Seeding(target, p).owners, Seeding(target, p).tx, |p.attacks|;
    GoodAt(target.db, p, owners, start, i, n);
    GoodAt(target.db, p, owners, start, i + 1, n);
    NextStep(target.db, p, owners, start, i);
    k := StepRefuses(target.db, p, owners, p.attacks[i], MatrixUpTo(target.db, p, owners, start, i));
    AdversaryContextIsFixed(target.db, p, owners, start, target.base.settings, i);
    MatrixLogs(target.db, p, owners, start, i + 1, n);
    RefusalStays(p, p.attacks[i], AdversaryContext(target, p), MatrixUpTo(target.db, p, owners, start, i + 1).tx.log,
      MatrixUpTo(target.db, p, owners, start, n).tx.log, k);
  }

  lemma NextStep(db: Database, p: Profile, owners: Seeder.OwnerRows, start: Tx, i: nat)
    requires i < |p.attacks| && Good(MatrixUpTo(db, p, owners, start, i))
    ensures MatrixUpTo(db, p, owners, start, i).failure == None
    ensures MatrixUpTo(db, p, owners, start, i + 1)
      == MatrixStep(db, p, owners, p.attacks[i], MatrixUpTo(db, p, owners, start, i))
  {
    hide MatrixStep;
  }

  lemma RefusalStays(p: Profile, a: Attack, c: Context, log: seq<Entry>, longer: seq<Entry>, k: int)
    requires RefusalAt(p, a, c, log, k) && log <= longer
    ensures RefusalAt(p, a, c, longer, k)
  {
    hide Attacks.RefusedInsert;
  }

  // ---------- no savepoints between attacks ----------

  /** Once the server has refused a statement, the next attack cannot be configured, and there is no verdict. */
  lemma RefusalEndsRun(target: Target, p: Profile, i: nat)
    requires SessionConfig.Configured(target.db, p.schema, p.owner, Begin(target.base)).1 == None
      && Seeding(target, p).failure == None
    requires i < |p.attacks|
    requires var m := MatrixUpTo(target.db, p, Seeding(target, p).owners, Seeding(target, p).tx, i);
      m.failure == None && m.tx.status.Aborted?
    ensures Final(target, p).failure.Some?
    ensures forall o :: o == Pass || o == Fail ==> !Reports(target, p, o)
  {
    hide *;
    var owners, start, n := Seeding(target, p).owners, Seeding(target, p).tx, |p.attacks|;
    var m := MatrixUpTo(target.db, p, owners, start, i);
    SoundContinues(target.db, p, owners, start, i);
    AbortedStepFails(target.db, p, owners, p.attacks[i], m);
    FailureStays(target.db, p, owners, start, i + 1, n);
    FinalMatrix(target, p);
    forall o | (o == Pass || o == Fail) && Reports(target, p, o) ensures false {
      VerdictFromMatrix(target, p, o);
    }
  }

  lemma AbortedStepFails(db: Database, p: Profile, owners: Seeder.OwnerRows, a: Attack, m: Matrix)
    requires m.failure == None && m.tx.status.Aborted?
    ensures MatrixStep(db, p, owners, a, m).failure.Some?
  {
    hide SessionConfig.Configured, Control.Verified, Attacked;
    if SessionConfig.Configured(db, p.schema, p.owner, m.tx).1 == None {
      SessionConfig.ConfiguredOverlays(db, p.schema, p.owner, m.tx);
    }
  }

  lemma SoundContinues(db: Database, p: Profile, owners: Seeder.OwnerRows, start: Tx, i: nat)
    requires i < |p.attacks| && MatrixUpTo(db, p, owners, start, i).failure == None
    ensures MatrixUpTo(db, p, owners, start, i + 1)
      == MatrixStep(db, p, owners, p.attacks[i], MatrixUpTo(db, p, owners, start, i))
  {
    hide MatrixStep;
  }
}
