/** When a run fails: on a server that refuses nothing but what the policies forbid, exactly when the profile exposes
    something and no refusal clouds it. */
module Failure {
  import opened Wrappers
  import opened Ordering
  import opened Text
  import opened Domain
  import opened SqlSyntax
  import opened Postgres
  import opened Runner
  import opened Isolation
  import opened ProfileValidation
  import opened Exactness
  import SqlSafe
  import Preflight
  import SessionConfig
  import Seeder
  import Control
  import Attacks
  import Evaluate
  import Accepted

  // ---------- what is claimed ----------

  /** A delete comes before the first update. */
  predicate DeletesFirst(ops: seq<Operation>)
    decreases ops
  {
    ops != [] && (ops[0] == Delete || (ops[0] != Update && DeletesFirst(ops[1..])))
  }

  /** The update policy admits, as mutated, every row of attack i that its first update finds: the rows with the key
      that the adversary may update, without those that a delete before it takes away. */
  ghost predicate UpdateFitsAt(target: Target, p: Profile, i: nat)
    requires i < |p.attacks|
  {
    var a := p.attacks[i];
    var c := AdversaryContext(target, p);
    Update in a.operations ==>
      forall row ::
        (row in RowsFound(target, p, a) && SqlSafe.KeyMatches(a.primaryKey, Aim(p, a), row)
          && target.db.CanUpdate(c, Rel(p, a), row)
          && !(DeletesFirst(a.operations) && target.db.CanDelete(c, Rel(p, a), row))) ==>
        target.db.updateCheck(c, Rel(p, a), row + a.mutation)
  }

  ghost predicate UpdatesFit(target: Target, p: Profile) {
    forall i :: 0 <= i < |p.attacks| ==> UpdateFitsAt(target, p, i)
  }

  predicate Admitted(target: Target, p: Profile, a: Attack) {
    target.db.insertCheck(AdversaryContext(target, p), Rel(p, a), a.insert)
  }

  /** What attack i can get through: a reached row, an admitted insert, or an operation that is not even sent. */
  ghost predicate Exposed(target: Target, p: Profile, i: nat)
    requires i < |p.attacks|
  {
    exists op :: op in p.attacks[i].operations &&
      (if op == Insert then Admitted(target, p, p.attacks[i])
       else !KeyOperation(op) || Reachable(target, p, p.attacks[i], op, AdversaryContext(target, p)))
  }

  ghost predicate OwnersSee(target: Target, p: Profile) {
    forall i :: 0 <= i < |p.attacks| ==> Reachable(target, p, p.attacks[i], Select, OwnerContext(target, p, i))
  }

  /** An insert that the policy forbids is the run's last statement. */
  predicate RefusedInsertAt(target: Target, p: Profile, i: nat)
    requires i < |p.attacks|
  {
    Insert in p.attacks[i].operations && !Admitted(target, p, p.attacks[i]) ==>
      i == |p.attacks| - 1 && InsertCount(p.attacks[i].operations) == 1
  }

  predicate RefusedInsertLast(target: Target, p: Profile) {
    forall i :: 0 <= i < |p.attacks| ==> RefusedInsertAt(target, p, i)
  }

  // ---------- evidence without unclear errors ----------

  ghost predicate ClearAll(evidence: seq<Evidence>) {
    forall e :: e in evidence ==> e.denied || e.error == ""
  }

  ghost predicate Leaky(evidence: seq<Evidence>) {
    exists e :: e in evidence && Attacks.Leak(e)
  }

  lemma EvidenceConcat(a: seq<Evidence>, b: seq<Evidence>)
    ensures ClearAll(a + b) <==> ClearAll(a) && ClearAll(b)
    ensures Leaky(a + b) <==> Leaky(a) || Leaky(b)
  {
    assert forall e :: e in a + b <==> e in a || e in b;
  }

  lemma EvidenceCons(e: Evidence, rest: seq<Evidence>)
    ensures ClearAll([e] + rest) <==> (e.denied || e.error == "") && ClearAll(rest)
    ensures Leaky([e] + rest) <==> Attacks.Leak(e) || Leaky(rest)
  {
    EvidenceConcat([e], rest);
    assert forall x :: x in [e] <==> x == e;
  }

  // ---------- a statement changes its own table only ----------

  ghost predicate SameElsewhere(rel: Relation, s: Session, s': Session) {
    && s'.Ctx() == s.Ctx() && (rel in s.tables ==> rel in s'.tables)
    && forall r :: r != rel ==> (r in s'.tables <==> r in s.tables) && s'.Stored(r) == s.Stored(r)
  }

  lemma SameElsewhereTransitive(rel: Relation, a: Session, b: Session, c: Session)
    requires SameElsewhere(rel, a, b) && SameElsewhere(rel, b, c)
    ensures SameElsewhere(rel, a, c)
  {
  }

  lemma DataOwnTable(db: Database, n: nat, s: Session, points: seq<Point>, q: Sql, args: seq<Value>, rel: Relation)
    requires RelationOf(q) == Some(rel) && !db.effectful(rel) && RunActive(db, n, s, points, q, args).Accepted?
    ensures SameElsewhere(rel, s, RunActive(db, n, s, points, q, args).session)
  {
    hide Filter, MapRows, SelectReached, UpdateReached, DeleteReached, SqlSafe.InsertedRow, SqlSafe.Bound;
  }

  lemma SendOwnTable(db: Database, t: Tx, sql: string, args: seq<Value>, rel: Relation)
    requires Parse(sql).Some? && RelationOf(Parse(sql).value) == Some(rel) && !db.effectful(rel)
    ensures SameElsewhere(rel, t.session, Send(db, t, sql, args).session)
  {
    hide Parse, RunActive;
    if LastReply(Send(db, t, sql, args)).Failed() {
      FailureChangesNothing(db, t, sql, args);
    } else {
      AcceptedOnActive(db, t, sql, args);
      DataOwnTable(db, |t.log|, t.session, t.points, Parse(sql).value, args, rel);
    }
  }

  // ---------- what a row statement leaves ----------

  /** The update policy admits every row the attack's update reaches, as mutated. */
  ghost predicate Fits(db: Database, rel: Relation, a: Attack, row: Row, s: Session) {
    forall r :: Reached(db, Update, s, rel, a.primaryKey, row, r) ==> db.updateCheck(s.Ctx(), rel, r + a.mutation)
  }

  /** What an accepted operation does to its table: a delete takes the reached rows away, an update leaves the rows it
      does not reach and the reached ones as mutated. */
  ghost predicate Leaves(db: Database, rel: Relation, a: Attack, row: Row, op: Operation, s: Session, s': Session) {
    match op
    case Delete =>
      forall r :: r in s'.Stored(rel) <==> r in s.Stored(rel) && !Reached(db, Delete, s, rel, a.primaryKey, row, r)
    case Update =>
      forall r :: r in s'.Stored(rel) ==>
        || (r in s.Stored(rel) && !Reached(db, Update, s, rel, a.primaryKey, row, r))
        || exists o :: Reached(db, Update, s, rel, a.primaryKey, row, o) && r == o + a.mutation
    case _ => s' == s
  }

  lemma MutatedIsMerged(row: Row, mutation: Row)
    requires |mutation| == 1
    ensures var c := SqlSafe.MutatedColumn(mutation); row[c := mutation[c]] == row + mutation
  {
    SqlSafe.SingleKey(mutation);
    var c := SqlSafe.MutatedColumn(mutation);
    assert c in mutation.Keys && mutation.Keys == {c};
  }

  lemma UpdateRunsIffFits(db: Database, n: nat, s: Session, points: seq<Point>, rel: Relation,
        where: seq<Condition>, args: seq<Value>, a: Attack, row: Row)
    requires Obliging(db) && rel in s.tables && !db.effectful(rel) && |a.mutation| == 1
    requires SqlSafe.Bound(args, 1) == a.mutation[SqlSafe.MutatedColumn(a.mutation)]
    requires Means(UpdateReached(db, s, rel, where, args), db, Update, s, rel, a.primaryKey, row)
    ensures var e := RunActive(db, n, s, points,
        UpdateRows(rel.schema, rel.table, SqlSafe.MutatedColumn(a.mutation), 1, where), args);
      && (e.Accepted? <==> Fits(db, rel, a, row, s))
      && (e.Accepted? ==> Leaves(db, rel, a, row, Update, s, e.session))
  {
    var c := SqlSafe.MutatedColumn(a.mutation);
    var reached := UpdateReached(db, s, rel, where, args);
    var rows := Filter(s.Stored(rel), reached);
    FilterFinds(s.Stored(rel), reached);
    hide Filter, UpdateReached, SqlSafe.Bound, SqlSafe.KeyMatches, Can, SqlSafe.MutatedColumn, Obliging;
    forall r ensures r[c := a.mutation[c]] == r + a.mutation {
      MutatedIsMerged(r, a.mutation);
    }
    assert forall r :: r in rows <==> Reached(db, Update, s, rel, a.primaryKey, row, r);
    assert Fits(db, rel, a, row, s) <==> forall r :: r in rows ==> db.updateCheck(s.Ctx(), rel, r[c := a.mutation[c]]);
    hide RunActive, RunUpdate;
    UpdateIsRun(db, n, s, points, rel, c, where, args);
    UpdateRunsIf(db, s, points, rel, c, SqlSafe.Bound(args, 1), reached);
  }

  lemma UpdateIsRun(db: Database, n: nat, s: Session, points: seq<Point>, rel: Relation, c: string,
        where: seq<Condition>, args: seq<Value>)
    requires Obliging(db) && rel in s.tables
    ensures RunActive(db, n, s, points, UpdateRows(rel.schema, rel.table, c, 1, where), args)
      == RunUpdate(db, s, points, rel, c, SqlSafe.Bound(args, 1), UpdateReached(db, s, rel, where, args))
  {
    hide UpdateReached, SqlSafe.Bound, RunUpdate;
  }

  ghost predicate AllAdmitted(db: Database, c: Context, rel: Relation, rows: seq<Row>, column: string, value: Value) {
    forall r :: r in rows ==> db.updateCheck(c, rel, r[column := value])
  }

  lemma UpdateRunsIf(db: Database, s: Session, points: seq<Point>, rel: Relation, c: string, value: Value,
        reached: Row -> bool)
    requires rel in s.tables && !db.effectful(rel)
    ensures RunUpdate(db, s, points, rel, c, value, reached).Accepted?
      <==> AllAdmitted(db, s.Ctx(), rel, Filter(s.Stored(rel), reached), c, value)
    ensures RunUpdate(db, s, points, rel, c, value, reached).Accepted? ==>
      RunUpdate(db, s, points, rel, c, value, reached).session.Stored(rel)
        == MapRows(s.Stored(rel), row => if reached(row) then row[c := value] else row)
  {
    var rows := Filter(s.Stored(rel), reached);
    hide Filter, MapRows;
    if RunUpdate(db, s, points, rel, c, value, reached).Accepted? {
      forall r | r in rows ensures db.updateCheck(s.Ctx(), rel, r[c := value]) {
        var i :| 0 <= i < |rows| && rows[i] == r;
      }
    } else {
      var i :| 0 <= i < |rows| && !db.updateCheck(s.Ctx(), rel, rows[i][c := value]);
      assert rows[i] in rows;
    }
  }

  lemma DeleteLeaves(db: Database, n: nat, s: Session, points: seq<Point>, rel: Relation, where: seq<Condition>,
        args: seq<Value>, a: Attack, row: Row)
    requires Obliging(db) && rel in s.tables && !db.effectful(rel)
    requires Means(DeleteReached(db, s, rel, where, args), db, Delete, s, rel, a.primaryKey, row)
    ensures Leaves(db, rel, a, row, Delete, s,
      RunActive(db, n, s, points, DeleteRows(rel.schema, rel.table, where), args).session)
  {
    var reached := DeleteReached(db, s, rel, where, args);
    FilterFinds(s.Stored(rel), row => !reached(row));
    hide Filter, DeleteReached, SqlSafe.KeyMatches, Can;
  }

  // ---------- one operation ----------

  /** The attack's update is accepted exactly when what it makes of the rows fits. */
  lemma UpdateGoes(db: Database, t: Tx, schema: string, a: Attack, row: Row)
    requires Obliging(db) && t.status.Active? && Relation(schema, a.table) in t.session.tables
    requires !db.effectful(Relation(schema, a.table))
    requires SqlSafe.UpdateStatement(schema, a.table, a.primaryKey, row, a.mutation).Ok?
    ensures var s := SqlSafe.UpdateStatement(schema, a.table, a.primaryKey, row, a.mutation).value;
      var next := Send(db, t, s.sql, s.args);
      var rel := Relation(schema, a.table);
      && (!LastReply(next).Failed() <==> Fits(db, rel, a, row, t.session))
      && (!LastReply(next).Failed() ==> Leaves(db, rel, a, row, Update, t.session, next.session))
  {
    hide Parse, SqlSafe.UpdateStatement, SqlSafe.Holds, SqlSafe.KeyMatches, Conditions, RunActive, Send, Obliging;
    hide Means, UpdateReached, Fits, Leaves;
    var s := SqlSafe.UpdateStatement(schema, a.table, a.primaryKey, row, a.mutation).value;
    SqlSafe.UpdateMeansKey(schema, a.table, a.primaryKey, row, a.mutation, map[]);
    UpdateMeans(db, t.session, schema, a.table, a.primaryKey, row, a.mutation);
    UpdateRunsIffFits(db, |t.log|, t.session, t.points, Relation(schema, a.table), Conditions(a.primaryKey, 2), s.args,
      a, row);
    Accepts(db, t, s.sql, s.args);
  }

  lemma DeleteGoes(db: Database, t: Tx, schema: string, a: Attack, row: Row)
    requires Obliging(db) && t.status.Active? && Relation(schema, a.table) in t.session.tables
    requires !db.effectful(Relation(schema, a.table))
    requires SqlSafe.DeleteStatement(schema, a.table, a.primaryKey, row).Ok?
    ensures var s := SqlSafe.DeleteStatement(schema, a.table, a.primaryKey, row).value;
      var next := Send(db, t, s.sql, s.args);
      !LastReply(next).Failed() && Leaves(db, Relation(schema, a.table), a, row, Delete, t.session, next.session)
  {
    var s := SqlSafe.DeleteStatement(schema, a.table, a.primaryKey, row).value;
    assert SqlSafe.SelectStatement(schema, a.table, a.primaryKey, row).Ok?;
    assert SqlSafe.SelectStatement(schema, a.table, a.primaryKey, row).value.args == s.args;
    hide Parse, SqlSafe.SelectStatement, SqlSafe.DeleteStatement, Conditions, RunActive, Send, Obliging, Means;
    hide DeleteReached, Leaves;
    KeyRead(schema, a.table, a.primaryKey, row);
    SelectMeans(db, t.session, schema, a.table, a.primaryKey, row);
    KeysRun(db, |t.log|, t.session, t.points, Relation(schema, a.table), Conditions(a.primaryKey, 1), s.args);
    DeleteLeaves(db, |t.log|, t.session, t.points, Relation(schema, a.table), Conditions(a.primaryKey, 1), s.args, a,
      row);
    Accepts(db, t, s.sql, s.args);
  }

  predicate StatementBuilds(schema: string, a: Attack, row: Row, op: Operation) {
    KeyOperation(op) ==> Attacks.StatementFor(schema, a, row, op).Ok?
  }

  /** An operation's statement is accepted, unless it is an update that does not fit. */
  lemma StatementGoes(db: Database, schema: string, a: Attack, row: Row, op: Operation, t: Tx)
    requires Obliging(db) && t.status.Active? && Relation(schema, a.table) in t.session.tables && KeyOperation(op)
    requires !db.effectful(Relation(schema, a.table)) && StatementBuilds(schema, a, row, op)
    ensures var s := Attacks.StatementFor(schema, a, row, op).value;
      var next := Send(db, t, s.sql, s.args);
      var rel := Relation(schema, a.table);
      && (!LastReply(next).Failed() <==> (op.Update? ==> Fits(db, rel, a, row, t.session)))
      && (!LastReply(next).Failed() ==> Leaves(db, rel, a, row, op, t.session, next.session))
  {
    hide Send, SqlSafe.SelectStatement, SqlSafe.DeleteStatement, SqlSafe.UpdateStatement, Obliging, Fits, AnyReached;
    match op {
      case Update => UpdateGoes(db, t, schema, a, row);
      case Delete => DeleteGoes(db, t, schema, a, row);
      case Select =>
        BothBuild(schema, a, row);
        KeyAccepts(db, t, schema, a.table, a.primaryKey, row);
        SelectStatementRuns(db, t, schema, a.table, a.primaryKey, row);
    }
  }

  /** One operation: clear evidence exactly when it is no update that does not fit; then it is denied exactly when it
      is supported and reaches nothing, and a denied one changes nothing. */
  lemma AttemptGoes(db: Database, schema: string, a: Attack, row: Row, op: Operation, t: Tx)
    requires Obliging(db) && t.status.Active? && op != Insert
    requires Relation(schema, a.table) in t.session.tables && !db.effectful(Relation(schema, a.table))
    requires StatementBuilds(schema, a, row, op)
    ensures var (t', e) := Attacks.Attempt(db, schema, a, row, op, t);
      var rel := Relation(schema, a.table);
      && (e.denied || e.error == "" <==> (op.Update? ==> Fits(db, rel, a, row, t.session)))
      && (e.denied || e.error == "" ==>
          && t'.status.Active? && SameElsewhere(rel, t.session, t'.session)
          && Leaves(db, rel, a, row, op, t.session, t'.session)
          && e.error == ""
          && (e.denied <==> KeyOperation(op) && !AnyReached(db, op, t.session, rel, a.primaryKey, row))
          && (e.denied ==> t'.session == t.session))
  {
    hide Obliging, Send, AnyReached, Attacks.StatementFor, Attacks.Sent, SameElsewhere, Parse, RelationOf, Fits;
    if KeyOperation(op) {
      var s := Attacks.StatementFor(schema, a, row, op).value;
      StatementGoes(db, schema, a, row, op, t);
      Attacks.SentShows(db, s, Attacks.Blank(a.table, op), t);
      hide Leaves;
      if !LastReply(Send(db, t, s.sql, s.args)).Failed() {
        Attacks.KeyReply(db, schema, a, row, op, t);
        Attacks.StatementIsData(schema, a, row, op);
        SendOwnTable(db, t, s.sql, s.args, Relation(schema, a.table));
        AcceptedOnData(db, t, s.sql, s.args);
        Attacks.AttemptMeans(db, schema, a, row, op, t);
      }
    } else {
      SameSession(Relation(schema, a.table), t.session);
    }
  }

  lemma SameSession(rel: Relation, s: Session)
    ensures SameElsewhere(rel, s, s)
  {
  }

  lemma AcceptedOnData(db: Database, t: Tx, sql: string, args: seq<Value>)
    requires Parse(sql).Some? && RelationOf(Parse(sql).value).Some? && !LastReply(Send(db, t, sql, args)).Failed()
    ensures Send(db, t, sql, args).status.Active?
  {
    hide Parse, RunActive;
    AcceptedOnActive(db, t, sql, args);
  }

  // ---------- an attack's operations ----------

  /** One of the operations, inserts aside, is unsupported or reaches a row. */
  ghost predicate GetsThrough(db: Database, ops: seq<Operation>, s: Session, rel: Relation, keys: seq<string>,
          values: Row) {
    exists op :: op in ops && op != Insert && (!KeyOperation(op) || AnyReached(db, op, s, rel, keys, values))
  }

  lemma GetsThroughCons(db: Database, ops: seq<Operation>, s: Session, rel: Relation, keys: seq<string>, values: Row)
    requires ops != []
    ensures GetsThrough(db, ops, s, rel, keys, values) <==>
      || (ops[0] != Insert && (!KeyOperation(ops[0]) || AnyReached(db, ops[0], s, rel, keys, values)))
      || GetsThrough(db, ops[1..], s, rel, keys, values)
  {
    hide AnyReached, KeyOperation;
    assert forall op :: op in ops <==> op == ops[0] || op in ops[1..] by {
      assert ops == [ops[0]] + ops[1..];
    }
  }

  /** The first of the updates, if there is one, fits: it finds the reached rows without those that a delete before
      it takes away. */
  ghost predicate Fitting(db: Database, rel: Relation, a: Attack, row: Row, ops: seq<Operation>, s: Session) {
    Update in ops ==>
      forall r ::
        (Reached(db, Update, s, rel, a.primaryKey, row, r)
          && !(DeletesFirst(ops) && db.CanDelete(s.Ctx(), rel, r))) ==>
        db.updateCheck(s.Ctx(), rel, r + a.mutation)
  }

  /** A row that an update has changed fits again: the mutation leaves it as it is. */
  lemma FitsAfterUpdate(db: Database, rel: Relation, a: Attack, row: Row, s: Session, s': Session)
    requires Fits(db, rel, a, row, s) && Leaves(db, rel, a, row, Update, s, s') && s'.Ctx() == s.Ctx()
    ensures Fits(db, rel, a, row, s')
  {
    forall r | Reached(db, Update, s', rel, a.primaryKey, row, r)
      ensures db.updateCheck(s'.Ctx(), rel, r + a.mutation)
    {
      hide SqlSafe.KeyMatches, Can;
      assert !(r in s.Stored(rel) && !Reached(db, Update, s, rel, a.primaryKey, row, r));
      var o :| Reached(db, Update, s, rel, a.primaryKey, row, o) && (r == o || r == o + a.mutation);
      assert r + a.mutation == o + a.mutation;
    }
  }

  lemma FittingStep(db: Database, rel: Relation, a: Attack, row: Row, ops: seq<Operation>, s: Session, s': Session)
    requires ops != [] && Leaves(db, rel, a, row, ops[0], s, s') && s'.Ctx() == s.Ctx()
    requires ops[0].Update? ==> Fits(db, rel, a, row, s)
    ensures Fitting(db, rel, a, row, ops, s) <==> Fitting(db, rel, a, row, ops[1..], s')
  {
    assert Update in ops <==> ops[0].Update? || Update in ops[1..] by {
      assert ops == [ops[0]] + ops[1..];
    }
    if ops[0].Update? {
      FitsAfterUpdate(db, rel, a, row, s, s');
    }
    hide SqlSafe.KeyMatches;
    if ops[0].Delete? {
      forall r ensures Reached(db, Update, s', rel, a.primaryKey, row, r)
        <==> Reached(db, Update, s, rel, a.primaryKey, row, r) && !db.CanDelete(s.Ctx(), rel, r)
      {
      }
    }
  }

  lemma UnfitFirst(db: Database, rel: Relation, a: Attack, row: Row, ops: seq<Operation>, s: Session)
    requires ops != [] && ops[0].Update? && !Fits(db, rel, a, row, s)
    ensures !Fitting(db, rel, a, row, ops, s)
  {
    assert ops[0] in ops;
  }

  /** All operations but the inserts: clear evidence exactly when the first update fits, and then a leak exactly when
      one gets through the tables as they were. */
  lemma {:induction false} RunGoes(db: Database, schema: string, a: Attack, row: Row, ops: seq<Operation>, t: Tx)
    requires Obliging(db) && t.status.Active?
    requires Relation(schema, a.table) in t.session.tables && !db.effectful(Relation(schema, a.table))
    requires forall op :: op in ops && op != Insert ==> StatementBuilds(schema, a, row, op)
    ensures var (t', es) := Attacks.RunFrom(db, schema, a, row, ops, t);
      var rel := Relation(schema, a.table);
      && (ClearAll(es) <==> Fitting(db, rel, a, row, ops, t.session))
      && (ClearAll(es) ==>
          && t'.status.Active? && SameElsewhere(rel, t.session, t'.session)
          && (Leaky(es) <==> GetsThrough(db, ops, t.session, rel, a.primaryKey, row)))
    decreases ops
  {
    var rel := Relation(schema, a.table);
    hide Obliging, Attacks.Attempt, GetsThrough, AnyReached, StatementBuilds, Fits, Fitting, Leaves;
    if ops == [] {
      NothingGetsThrough(db, t.session, rel, a.primaryKey, row);
      NothingToFit(db, rel, a, row, t.session);
      SameSession(rel, t.session);
    } else {
      assert ops[0] in ops && forall op :: op in ops[1..] ==> op in ops;
      GetsThroughCons(db, ops, t.session, rel, a.primaryKey, row);
      if ops[0] == Insert {
        RunGoes(db, schema, a, row, ops[1..], t);
        InsertLeaves(db, rel, a, row, t.session);
        FittingStep(db, rel, a, row, ops, t.session, t.session);
      } else {
        AttemptGoes(db, schema, a, row, ops[0], t);
        var (t1, e) := Attacks.Attempt(db, schema, a, row, ops[0], t);
        EvidenceCons(e, Attacks.RunFrom(db, schema, a, row, ops[1..], t1).1);
        hide SameElsewhere, ClearAll, Leaky;
        if e.denied || e.error == "" {
          SameContext(rel, t.session, t1.session);
          FittingStep(db, rel, a, row, ops, t.session, t1.session);
          RunGoes(db, schema, a, row, ops[1..], t1);
          SameElsewhereIf(rel, t.session, t1.session, Attacks.RunFrom(db, schema, a, row, ops[1..], t1).0.session);
        } else {
          UnfitFirst(db, rel, a, row, ops, t.session);
        }
      }
    }
  }

  lemma SameElsewhereIf(rel: Relation, a: Session, b: Session, c: Session)
    requires SameElsewhere(rel, a, b)
    ensures SameElsewhere(rel, b, c) ==> SameElsewhere(rel, a, c)
  {
  }

  lemma NothingToFit(db: Database, rel: Relation, a: Attack, row: Row, s: Session)
    ensures Fitting(db, rel, a, row, [], s)
  {
  }

  lemma InsertLeaves(db: Database, rel: Relation, a: Attack, row: Row, s: Session)
    ensures Leaves(db, rel, a, row, Insert, s, s)
  {
  }

  lemma NothingGetsThrough(db: Database, s: Session, rel: Relation, keys: seq<string>, values: Row)
    ensures !GetsThrough(db, [], s, rel, keys, values) && ClearAll([]) && !Leaky([])
  {
  }

  lemma InsertGoes(db: Database, schema: string, a: Attack, t: Tx)
    requires Obliging(db) && t.status.Active? && Relation(schema, a.table) in t.session.tables
      && InsertBuilds(schema, a)
    requires !db.effectful(Relation(schema, a.table))
    ensures var (t', e) := Attacks.InsertAttempt(db, schema, a, t);
      && (e.denied || e.error == "") && SameElsewhere(Relation(schema, a.table), t.session, t'.session)
      && if db.insertCheck(t.session.Ctx(), Relation(schema, a.table), a.insert) then Attacks.Leak(e)
      && t'.status.Active?
         else e.denied && t'.status.Aborted?
  {
    hide SqlSafe.InsertStatement, Send, SameElsewhere, Obliging;
    var rel := Relation(schema, a.table);
    InsertAnswers(db, t, schema, a.table, a.insert);
    OwnTableChanged(db, t.session, rel, t.session.Stored(rel) + [a.insert]);
    SameSession(rel, t.session);
  }

  lemma OwnTableChanged(db: Database, s: Session, rel: Relation, rows: seq<Row>)
    requires !db.effectful(rel)
    ensures SameElsewhere(rel, s, s.(tables := db.AfterChange(rel, s.tables[rel := rows])))
  {
  }

  /** The inserts of an attack: all admitted, or a single one refused. */
  lemma {:induction false} InsertsGo(db: Database, schema: string, a: Attack, ops: seq<Operation>, t: Tx)
    requires Obliging(db) && t.status.Active? && Relation(schema, a.table) in t.session.tables
    requires !db.effectful(Relation(schema, a.table)) && (Insert in ops ==> InsertBuilds(schema, a))
    requires db.insertCheck(t.session.Ctx(), Relation(schema, a.table), a.insert) || InsertCount(ops) <= 1
    ensures var (t', es) := InsertsFrom(db, schema, a, ops, t);
      var admitted := db.insertCheck(t.session.Ctx(), Relation(schema, a.table), a.insert);
      && ClearAll(es) && SameElsewhere(Relation(schema, a.table), t.session, t'.session)
      && (Leaky(es) <==> Insert in ops && admitted)
      && (admitted || InsertCount(ops) == 0 ==> t'.status.Active?)
    decreases ops
  {
    var rel := Relation(schema, a.table);
    hide Obliging, InsertBuilds, Attacks.InsertAttempt;
    if ops == [] {
      SameSession(rel, t.session);
    } else {
      assert ops == [ops[0]] + ops[1..];
      if ops[0] != Insert {
        InsertsGo(db, schema, a, ops[1..], t);
      } else {
        InsertGoes(db, schema, a, t);
        var (t1, e) := Attacks.InsertAttempt(db, schema, a, t);
        if db.insertCheck(t.session.Ctx(), rel, a.insert) {
          InsertsGo(db, schema, a, ops[1..], t1);
        } else {
          NoInserts(db, schema, a, ops[1..], t1);
          SameSession(rel, t1.session);
        }
        EvidenceCons(e, InsertsFrom(db, schema, a, ops[1..], t1).1);
        SameElsewhereTransitive(rel, t.session, t1.session, InsertsFrom(db, schema, a, ops[1..], t1).0.session);
        hide SameElsewhere, ClearAll, Leaky;
      }
    }
  }

  // ---------- one attack ----------

  /** What attack a exposes, seen from the session in which it starts. */
  ghost predicate ExposedFor(db: Database, p: Profile, a: Attack, s: Session) {
    var s' := AdversarySession(p, s);
    || GetsThrough(db, a.operations, s', Rel(p, a), a.primaryKey, Aim(p, a))
    || (Insert in a.operations && db.insertCheck(s'.Ctx(), Rel(p, a), a.insert))
  }

  /** What an attack needs, at its start, to run to its end without an unclear error. */
  ghost predicate Smooth(db: Database, p: Profile, a: Attack, s: Session) {
    var s' := AdversarySession(p, s);
    && Builds(p, a)
    && AnyReached(db, Select, OwnerSession(p, s), Rel(p, a), a.primaryKey, Aim(p, a))
    && Fitting(db, Rel(p, a), a, Aim(p, a), a.operations, s')
    && (db.insertCheck(s'.Ctx(), Rel(p, a), a.insert) || InsertCount(a.operations) <= 1)
  }

  /** Completed so far, every control a success, no error unclear. */
  ghost predicate Sound(m: Matrix) {
    m.failure == None && m.controlOK && ClearAll(m.evidence)
  }

  lemma OperationsBuild(p: Profile, a: Attack)
    requires Builds(p, a)
    ensures forall op :: op in a.operations && op != Insert ==> StatementBuilds(p.schema, a, Aim(p, a), op)
  {
    BothBuild(p.schema, a, Aim(p, a));
    hide SqlSafe.SelectStatement, SqlSafe.DeleteStatement, SqlSafe.UpdateStatement, InsertBuilds, Aim;
  }

  lemma AttackedGoes(db: Database, p: Profile, a: Attack, m: Matrix, s: Session)
    requires Obliging(db) && GoodHeader(p) && Sound(m) && m.tx.status.Active? && m.tx.session == OwnerSession(p, s)
    requires Rel(p, a) in s.tables && !db.effectful(Rel(p, a)) && Smooth(db, p, a, s)
    ensures var m' := Attacked(db, p, a, Aim(p, a), m);
      && Sound(m') && SameElsewhere(Rel(p, a), AdversarySession(p, s), m'.tx.session)
      && (Leaky(m'.evidence) <==> Leaky(m.evidence) || ExposedFor(db, p, a, s))
      && (db.insertCheck(AdversarySession(p, s).Ctx(), Rel(p, a), a.insert) || InsertCount(a.operations) == 0 ==>
        m'.tx.status.Active?)
  {
    var row := Aim(p, a);
    ConfigureAccepts(db, p.schema, p.adversary, m.tx);
    SessionConfig.ConfiguredOverlays(db, p.schema, p.adversary, m.tx);
    OperationsBuild(p, a);
    hide SessionConfig.Configured, AllAccepted, Obliging, GetsThrough, AnyReached, StatementBuilds, SameElsewhere, Aim;
    hide Attacks.RunFrom, InsertsFrom, ClearAll, Leaky, GoodHeader, Fitting;
    var t := SessionConfig.Configured(db, p.schema, p.adversary, m.tx).0;
    assert t.session == AdversarySession(p, s);
    RunGoes(db, p.schema, a, row, a.operations, t);
    var (t1, e1) := Attacks.RunFrom(db, p.schema, a, row, a.operations, t);
    SameContext(Rel(p, a), t.session, t1.session);
    InsertsGo(db, p.schema, a, a.operations, t1);
    var (t2, e2) := InsertsFrom(db, p.schema, a, a.operations, t1);
    SameElsewhereTransitive(Rel(p, a), t.session, t1.session, t2.session);
    EvidenceConcat(m.evidence + e1, e2);
    EvidenceConcat(m.evidence, e1);
  }

  lemma SameContext(rel: Relation, s: Session, s': Session)
    requires SameElsewhere(rel, s, s')
    ensures s'.Ctx() == s.Ctx() && (rel in s.tables ==> rel in s'.tables)
  {
  }

  lemma StepBegins(db: Database, p: Profile, a: Attack, t: Tx)
    requires Obliging(db) && GoodHeader(p) && t.status.Active? && Rel(p, a) in t.session.tables
      && Smooth(db, p, a, t.session)
    ensures var (t1, failure) := SessionConfig.Configured(db, p.schema, p.owner, t);
      var (t2, ok) := Control.Verified(db, p.schema, a, Aim(p, a), t1);
      failure == None && ok && t2.status.Active? && t2.session == OwnerSession(p, t.session)
  {
    hide Obliging, InsertBuilds, AnyReached, SqlSafe.SelectStatement, SqlSafe.UpdateStatement, IsIdentifier, Aim;
    ConfigureAccepts(db, p.schema, p.owner, t);
    SessionConfig.ConfiguredOverlays(db, p.schema, p.owner, t);
    hide SessionConfig.Configured, AllAccepted;
    var t1 := SessionConfig.Configured(db, p.schema, p.owner, t).0;
    ControlSucceeds(db, p, a, Aim(p, a), t1);
    Control.VerifiedObserves(db, p.schema, a, Aim(p, a), t1);
    hide Control.Verified;
  }

  /** A smooth attack goes through, and leaks exactly when it is exposed. */
  lemma StepGoes(db: Database, p: Profile, owners: Seeder.OwnerRows, a: Attack, m: Matrix)
    requires Obliging(db) && GoodHeader(p) && Sound(m) && m.tx.status.Active?
    requires Rel(p, a) in m.tx.session.tables && !db.effectful(Rel(p, a)) && Smooth(db, p, a, m.tx.session)
    requires RowFor(owners, a.table) == Aim(p, a)
    ensures var m' := MatrixStep(db, p, owners, a, m);
      var s' := AdversarySession(p, m.tx.session);
      && Sound(m') && SameElsewhere(Rel(p, a), s', m'.tx.session)
      && (Leaky(m'.evidence) <==> Leaky(m.evidence) || ExposedFor(db, p, a, m.tx.session))
      && (db.insertCheck(s'.Ctx(), Rel(p, a), a.insert) || InsertCount(a.operations) == 0 ==> m'.tx.status.Active?)
  {
    StepBegins(db, p, a, m.tx);
    hide Obliging, GoodHeader, Smooth, ExposedFor, ClearAll, Leaky, SameElsewhere, AdversarySession, OwnerSession, Aim;
    hide SessionConfig.Configured, Control.Verified, Attacked;
    var t := SessionConfig.Configured(db, p.schema, p.owner, m.tx).0;
    AttackedGoes(db, p, a, m.(tx := Control.Verified(db, p.schema, a, Aim(p, a), t).0), m.tx.session);
  }

  // ---------- policies and sessions ----------

  /** The session at the start of attack n: the tables of the attacks still to come are as they were seeded. */
  ghost predicate Ahead(target: Target, p: Profile, n: nat, s: Session) {
    && s.settings == StartSettings(p, target.base.settings, n)
    && forall j :: n <= j < |p.attacks| ==>
         Rel(p, p.attacks[j]) in s.tables && s.Stored(Rel(p, p.attacks[j])) == RowsFound(target, p, p.attacks[j])
  }

  lemma AheadIsPlaced(target: Target, p: Profile, n: nat, s: Session)
    requires n < |p.attacks| && Ahead(target, p, n, s)
    ensures Placed(target, p, n, s)
  {
    hide RowsFound, StartSettings;
  }

  lemma AheadOn(target: Target, p: Profile, n: nat, s: Session, s': Session)
    requires Shaped(p) && n < |p.attacks| && Ahead(target, p, n, s)
    requires SameElsewhere(Rel(p, p.attacks[n]), AdversarySession(p, s), s')
    ensures Ahead(target, p, n + 1, s')
  {
    OnwardSession(p, target.base.settings, n, s);
    hide RowsFound, StartSettings, GoodHeader, GoodFixture, GoodEntry, GoodKeys, HasAttack, HasFixture;
    var s1 := AdversarySession(p, s);
    forall j | n + 1 <= j < |p.attacks|
      ensures Rel(p, p.attacks[j]) in s'.tables && s'.Stored(Rel(p, p.attacks[j])) == RowsFound(target, p, p.attacks[j])
    {
      assert p.attacks[n].table != p.attacks[j].table;
      assert s1.Stored(Rel(p, p.attacks[j])) == s.Stored(Rel(p, p.attacks[j]));
    }
  }

  lemma AheadStart(target: Target, p: Profile)
    requires Shaped(p) && Cooperative(target, p)
    requires Seeding(target, p).tx.session.settings == target.base.settings + p.owner.settings
    ensures Ahead(target, p, 0, Seeding(target, p).tx.session)
  {
    hide Shaped, Cooperative, Seeding, RowsFound;
    forall j | 0 <= j < |p.attacks|
      ensures var s := Seeding(target, p).tx.session;
        Rel(p, p.attacks[j]) in s.tables && s.Stored(Rel(p, p.attacks[j])) == RowsFound(target, p, p.attacks[j])
    {
      SeedingPlaces(target, p, p.attacks[j]);
    }
  }

  lemma ExposedIs(target: Target, p: Profile, i: nat, s: Session)
    requires i < |p.attacks| && Placed(target, p, i, s)
    ensures Exposed(target, p, i) <==> ExposedFor(target.db, p, p.attacks[i], s)
    ensures Reachable(target, p, p.attacks[i], Select, OwnerContext(target, p, i))
      <==> AnyReached(target.db, Select, OwnerSession(p, s), Rel(p, p.attacks[i]), p.attacks[i].primaryKey,
        Aim(p, p.attacks[i]))
    ensures AdversarySession(p, s).Ctx() == AdversaryContext(target, p)
    ensures UpdateFitsAt(target, p, i)
      <==> Fitting(target.db, Rel(p, p.attacks[i]), p.attacks[i], Aim(p, p.attacks[i]), p.attacks[i].operations,
        AdversarySession(p, s))
  {
    var a := p.attacks[i];
    PlacedContexts(target, p, i, s);
    hide Placed, RowsFound, Reachable, AnyReached, OwnerContext, AdversaryContext, OwnerSession, AdversarySession;
    hide KeyOperation, Aim;
    ReachableIs(target, p, a, Select, OwnerSession(p, s));
    forall op ensures Reachable(target, p, a, op, AdversaryContext(target, p))
      <==> AnyReached(target.db, op, AdversarySession(p, s), Rel(p, a), a.primaryKey, Aim(p, a))
    {
      ReachableIs(target, p, a, op, AdversarySession(p, s));
    }
    if Exposed(target, p, i) {
      var op :| op in a.operations &&
        (if op == Insert then Admitted(target, p, a)
         else !KeyOperation(op) || Reachable(target, p, a, op, AdversaryContext(target, p)));
    }
  }

  lemma SmoothIs(target: Target, p: Profile, i: nat, s: Session)
    requires Shaped(p) && i < |p.attacks| && UpdateFitsAt(target, p, i) && Placed(target, p, i, s)
    requires Attackable(p.attacks[i]) && RefusedInsertAt(target, p, i)
    requires Reachable(target, p, p.attacks[i], Select, OwnerContext(target, p, i))
    ensures Smooth(target.db, p, p.attacks[i], s)
  {
    var a := p.attacks[i];
    assert a in p.attacks;
    ExposedIs(target, p, i, s);
    BuildsIs(p, a);
    CountsInserts(a.operations);
    hide Shaped, Placed, RowsFound, Reachable, AnyReached, OwnerContext, AdversaryContext, OwnerSession;
    hide AdversarySession;
    hide Builds, Attackable, Exposed, ExposedFor, Aim;
  }

  ghost predicate ExposedBefore(target: Target, p: Profile, n: nat)
    requires n <= |p.attacks|
  {
    exists i :: 0 <= i < n && Exposed(target, p, i)
  }

  lemma ExposedNext(target: Target, p: Profile, n: nat)
    requires n < |p.attacks|
    ensures ExposedBefore(target, p, n + 1) <==> ExposedBefore(target, p, n) || Exposed(target, p, n)
  {
    hide Exposed;
    if ExposedBefore(target, p, n + 1) {
      var i :| 0 <= i < n + 1 && Exposed(target, p, i);
    }
  }

  // ---------- all attacks ----------

  /** The matrix after n smooth attacks. */
  ghost predicate GoneThrough(target: Target, p: Profile, n: nat, m: Matrix)
    requires n <= |p.attacks|
  {
    Sound(m) && Ahead(target, p, n, m.tx.session) && (Leaky(m.evidence) <==> ExposedBefore(target, p, n))
  }

  lemma GoOn(target: Target, p: Profile, i: nat, m: Matrix)
    requires Shaped(p) && Cooperative(target, p) && i < |p.attacks|
    requires GoneThrough(target, p, i, m) && m.tx.status.Active?
    requires Attackable(p.attacks[i]) && RefusedInsertAt(target, p, i) && UpdateFitsAt(target, p, i)
    requires Reachable(target, p, p.attacks[i], Select, OwnerContext(target, p, i))
    ensures var m' := MatrixStep(target.db, p, Seeding(target, p).owners, p.attacks[i], m);
      && GoneThrough(target, p, i + 1, m') && (i < |p.attacks| - 1 ==> m'.tx.status.Active?)
  {
    var a := p.attacks[i];
    assert a in p.attacks && GoodHeader(p);
    CountsInserts(a.operations);
    hide Shaped, Cooperative, Sound, Ahead, Attackable, Reachable, Smooth, ExposedFor, Leaky, SameElsewhere, MatrixStep;
    hide Exposed;
    hide Seeding, AdversarySession, AdversaryContext, GoodHeader, Obliging;
    EffectFree(target, p, a);
    AheadIsPlaced(target, p, i, m.tx.session);
    SmoothIs(target, p, i, m.tx.session);
    ExposedIs(target, p, i, m.tx.session);
    SeedingPlaces(target, p, a);
    AimIsSeeded(target, p, a);
    PlacedTable(target, p, i, m.tx.session);
    StepGoes(target.db, p, Seeding(target, p).owners, a, m);
    AheadOn(target, p, i, m.tx.session, MatrixStep(target.db, p, Seeding(target, p).owners, a, m).tx.session);
    ExposedNext(target, p, i);
  }

  lemma GoneStart(target: Target, p: Profile)
    requires Shaped(p) && Cooperative(target, p)
    requires Seeding(target, p).tx.session.settings == target.base.settings + p.owner.settings
    ensures GoneThrough(target, p, 0, MatrixUpTo(target.db, p, Seeding(target, p).owners, Seeding(target, p).tx, 0))
  {
    hide Shaped, Cooperative, Ahead, Seeding, RowsFound, Exposed;
    AheadStart(target, p);
  }

  lemma {:induction false} MatrixGoes(target: Target, p: Profile, n: nat)
    requires Shaped(p) && Cooperative(target, p) && n <= |p.attacks|
    requires AllAttackable(p) && OwnersSee(target, p) && RefusedInsertLast(target, p) && UpdatesFit(target, p)
    requires Seeding(target, p).tx.status.Active?
    requires Seeding(target, p).tx.session.settings == target.base.settings + p.owner.settings
    ensures var m := MatrixUpTo(target.db, p, Seeding(target, p).owners, Seeding(target, p).tx, n);
      GoneThrough(target, p, n, m) && (n < |p.attacks| ==> m.tx.status.Active?)
  {
    hide *;
    if n == 0 {
      GoneStart(target, p);
      StartIsStart(target.db, p, Seeding(target, p).owners, Seeding(target, p).tx);
    } else {
      Entry(target, p, n - 1);
      MatrixGoes(target, p, n - 1);
      var m := MatrixUpTo(target.db, p, Seeding(target, p).owners, Seeding(target, p).tx, n - 1);
      GoneHasNoFailure(target, p, n - 1, m);
      GoOn(target, p, n - 1, m);
      SoundContinues(target.db, p, Seeding(target, p).owners, Seeding(target, p).tx, n - 1);
    }
  }

  lemma Entry(target: Target, p: Profile, i: nat)
    requires i < |p.attacks| && AllAttackable(p) && OwnersSee(target, p) && RefusedInsertLast(target, p)
    requires UpdatesFit(target, p)
    ensures Attackable(p.attacks[i]) && RefusedInsertAt(target, p, i) && UpdateFitsAt(target, p, i)
    ensures Reachable(target, p, p.attacks[i], Select, OwnerContext(target, p, i))
  {
    hide Attackable, RefusedInsertAt, UpdateFitsAt, Reachable, OwnerContext;
    assert p.attacks[i] in p.attacks;
  }

  lemma StartIsStart(db: Database, p: Profile, owners: Seeder.OwnerRows, start: Tx)
    ensures MatrixUpTo(db, p, owners, start, 0).tx == start
  {
  }

  lemma GoneHasNoFailure(target: Target, p: Profile, n: nat, m: Matrix)
    requires n <= |p.attacks| && GoneThrough(target, p, n, m)
    ensures m.failure == None && m.controlOK
    ensures forall e :: e in m.evidence ==> e.denied || e.error == ""
    ensures Leaky(m.evidence) <==> ExposedBefore(target, p, n)
  {
    hide Ahead, Leaky, ExposedBefore;
  }

  // ---------- a run without unclear errors was smooth ----------

  lemma SoundBefore(db: Database, p: Profile, owners: Seeder.OwnerRows, a: Attack, m: Matrix)
    requires Sound(if m.failure.Some? then m else MatrixStep(db, p, owners, a, m))
    ensures Sound(m)
  {
    hide SessionConfig.Configured, Control.Verified, Attacks.RunFrom, InsertsFrom, ClearAll;
    var row := RowFor(owners, a.table);
    var t := Control.Verified(db, p.schema, a, row, SessionConfig.Configured(db, p.schema, p.owner, m.tx).0).0;
    var t2 := SessionConfig.Configured(db, p.schema, p.adversary, t).0;
    var (t3, e1) := Attacks.RunFrom(db, p.schema, a, row, a.operations, t2);
    var (t4, e2) := InsertsFrom(db, p.schema, a, a.operations, t3);
    EvidenceConcat(m.evidence + e1, e2);
    EvidenceConcat(m.evidence, e1);
  }

  lemma {:induction false} SoundAt(db: Database, p: Profile, owners: Seeder.OwnerRows, start: Tx, i: nat, n: nat)
    requires i <= n <= |p.attacks| && Sound(MatrixUpTo(db, p, owners, start, n))
    ensures Sound(MatrixUpTo(db, p, owners, start, i))
    decreases n - i
  {
    hide MatrixStep, Sound;
    if i < n {
      SoundBefore(db, p, owners, p.attacks[n - 1], MatrixUpTo(db, p, owners, start, n - 1));
      SoundAt(db, p, owners, start, i, n - 1);
    }
  }

  lemma {:induction false} ClearBuilds(db: Database, schema: string, a: Attack, row: Row, ops: seq<Operation>, t: Tx)
    requires ClearAll(Attacks.RunFrom(db, schema, a, row, ops, t).1)
    ensures Update in ops ==> SqlSafe.UpdateStatement(schema, a.table, a.primaryKey, row, a.mutation).Ok?
    decreases ops
  {
    hide SqlSafe.UpdateStatement, Send, SqlSafe.SelectStatement, SqlSafe.DeleteStatement;
    if ops != [] {
      assert ops == [ops[0]] + ops[1..];
      if ops[0] == Insert {
        ClearBuilds(db, schema, a, row, ops[1..], t);
      } else {
        var (t1, e) := Attacks.Attempt(db, schema, a, row, ops[0], t);
        EvidenceCons(e, Attacks.RunFrom(db, schema, a, row, ops[1..], t1).1);
        ClearBuilds(db, schema, a, row, ops[1..], t1);
      }
    }
  }

  lemma {:induction false} ClearInsertsBuild(db: Database, schema: string, a: Attack, ops: seq<Operation>, t: Tx)
    requires ClearAll(InsertsFrom(db, schema, a, ops, t).1)
    ensures Insert in ops ==> InsertBuilds(schema, a)
    decreases ops
  {
    hide SqlSafe.InsertStatement, Send;
    if ops != [] {
      assert ops == [ops[0]] + ops[1..];
      if ops[0] != Insert {
        ClearInsertsBuild(db, schema, a, ops[1..], t);
      } else {
        var (t1, e) := Attacks.InsertAttempt(db, schema, a, t);
        EvidenceCons(e, InsertsFrom(db, schema, a, ops[1..], t1).1);
      }
    }
  }

  lemma AbortedInsertIsUnclear(db: Database, schema: string, a: Attack, t: Tx)
    requires Obliging(db) && t.status.Aborted?
    ensures var e := Attacks.InsertAttempt(db, schema, a, t).1; !e.denied && e.error != ""
  {
    hide SqlSafe.InsertStatement, Parse, Send, Obliging;
    if Attacks.InsertAttempt(db, schema, a, t).1.denied {
      DeniedInsertWasActive(db, schema, a, t);
    }
    var built := SqlSafe.InsertStatement(schema, a.table, a.insert, SortedElements(a.insert.Keys));
    if built.Ok? {
      InsertStatementRuns(db, t, schema, a.table, a.insert);
    }
  }

  lemma {:induction false} NoInsertAfterAbort(db: Database, schema: string, a: Attack, ops: seq<Operation>, t: Tx)
    requires Obliging(db) && t.status.Aborted? && ClearAll(InsertsFrom(db, schema, a, ops, t).1)
    ensures InsertCount(ops) == 0
    decreases ops
  {
    hide Obliging, Attacks.InsertAttempt;
    if ops != [] {
      if ops[0] != Insert {
        NoInsertAfterAbort(db, schema, a, ops[1..], t);
      } else {
        var (t1, e) := Attacks.InsertAttempt(db, schema, a, t);
        EvidenceCons(e, InsertsFrom(db, schema, a, ops[1..], t1).1);
        AbortedInsertIsUnclear(db, schema, a, t);
      }
    }
  }

  lemma {:induction false} RefusedInsertIsOne(db: Database, schema: string, a: Attack, ops: seq<Operation>, t: Tx)
    requires Obliging(db) && t.status.Active? && Relation(schema, a.table) in t.session.tables
      && InsertBuilds(schema, a)
    requires Insert in ops && !db.insertCheck(t.session.Ctx(), Relation(schema, a.table), a.insert)
    requires ClearAll(InsertsFrom(db, schema, a, ops, t).1)
    ensures InsertCount(ops) == 1 && InsertsFrom(db, schema, a, ops, t).0.status.Aborted?
    decreases ops
  {
    hide Obliging, InsertBuilds, Attacks.InsertAttempt;
    assert ops == [ops[0]] + ops[1..];
    if ops[0] != Insert {
      RefusedInsertIsOne(db, schema, a, ops[1..], t);
    } else {
      InsertRefused(db, schema, a, t);
      var (t1, e) := Attacks.InsertAttempt(db, schema, a, t);
      EvidenceCons(e, InsertsFrom(db, schema, a, ops[1..], t1).1);
      NoInsertAfterAbort(db, schema, a, ops[1..], t1);
      NoInserts(db, schema, a, ops[1..], t1);
    }
  }

  /** What an attack without unclear errors shows, seen from the session in which it starts. */
  ghost predicate Shown(db: Database, p: Profile, a: Attack, s: Session, after: Tx) {
    && Builds(p, a)
    && AnyReached(db, Select, OwnerSession(p, s), Rel(p, a), a.primaryKey, Aim(p, a))
    && Fitting(db, Rel(p, a), a, Aim(p, a), a.operations, AdversarySession(p, s))
    && (Insert in a.operations && !db.insertCheck(AdversarySession(p, s).Ctx(), Rel(p, a), a.insert) ==>
          InsertCount(a.operations) == 1 && after.status.Aborted?)
  }

  lemma AttackedShows(db: Database, p: Profile, a: Attack, m: Matrix, s: Session)
    requires Obliging(db) && !db.effectful(Rel(p, a)) && Rel(p, a) in s.tables && m.tx.session == OwnerSession(p, s)
    requires Sound(Attacked(db, p, a, Aim(p, a), m))
      && SqlSafe.SelectStatement(p.schema, a.table, a.primaryKey, Aim(p, a)).Ok?
    requires AnyReached(db, Select, OwnerSession(p, s), Rel(p, a), a.primaryKey, Aim(p, a))
    ensures Shown(db, p, a, s, Attacked(db, p, a, Aim(p, a), m).tx)
  {
    hide Obliging, InsertBuilds, SqlSafe.SelectStatement, SqlSafe.UpdateStatement, AnyReached, Aim;
    hide SessionConfig.Configured;
    hide Attacks.RunFrom, InsertsFrom, ClearAll, AllAccepted;
    var row := Aim(p, a);
    SessionConfig.ConfiguredOverlays(db, p.schema, p.adversary, m.tx);
    var t := SessionConfig.Configured(db, p.schema, p.adversary, m.tx).0;
    var (t1, e1) := Attacks.RunFrom(db, p.schema, a, row, a.operations, t);
    var (t2, e2) := InsertsFrom(db, p.schema, a, a.operations, t1);
    EvidenceConcat(m.evidence + e1, e2);
    EvidenceConcat(m.evidence, e1);
    ClearBuilds(db, p.schema, a, row, a.operations, t);
    ClearInsertsBuild(db, p.schema, a, a.operations, t1);
    hide IsIdentifier, Fitting;
    OperationsBuild(p, a);
    RunGoes(db, p.schema, a, row, a.operations, t);
    if Insert in a.operations && !db.insertCheck(AdversarySession(p, s).Ctx(), Rel(p, a), a.insert) {
      SameContext(Rel(p, a), t.session, t1.session);
      RefusedInsertIsOne(db, p.schema, a, a.operations, t1);
    }
  }

  lemma StepShows(db: Database, p: Profile, owners: Seeder.OwnerRows, a: Attack, m: Matrix)
    requires Obliging(db) && !db.effectful(Rel(p, a)) && Rel(p, a) in m.tx.session.tables && m.failure == None
    requires Sound(MatrixStep(db, p, owners, a, m)) && RowFor(owners, a.table) == Aim(p, a)
    requires SqlSafe.SelectStatement(p.schema, a.table, a.primaryKey, Aim(p, a)).Ok?
    ensures m.tx.status.Active? && Shown(db, p, a, m.tx.session, MatrixStep(db, p, owners, a, m).tx)
  {
    hide SessionConfig.Configured, Control.Verified, Attacked, Shown, SqlSafe.SelectStatement, Obliging, AllAccepted;
    hide Aim;
    hide ClearAll, IsIdentifier, Reached;
    SessionConfig.ConfiguredOverlays(db, p.schema, p.owner, m.tx);
    var t := SessionConfig.Configured(db, p.schema, p.owner, m.tx).0;
    Control.VerifiedObserves(db, p.schema, a, Aim(p, a), t);
    AttackedShows(db, p, a, m.(tx := Control.Verified(db, p.schema, a, Aim(p, a), t).0), m.tx.session);
  }

  lemma StepWasActive(db: Database, p: Profile, owners: Seeder.OwnerRows, a: Attack, m: Matrix)
    requires m.failure == None && MatrixStep(db, p, owners, a, m).failure == None
    ensures m.tx.status.Active?
  {
    hide SessionConfig.Configured, Control.Verified, Attacked;
    SessionConfig.ConfiguredOverlays(db, p.schema, p.owner, m.tx);
  }

  ghost function UpTo(target: Target, p: Profile, n: nat): Matrix
    requires n <= |p.attacks|
  {
    MatrixUpTo(target.db, p, Seeding(target, p).owners, Seeding(target, p).tx, n)
  }

  lemma UpToSteps(target: Target, p: Profile, i: nat)
    requires i < |p.attacks| && Sound(UpTo(target, p, |p.attacks|))
    ensures Sound(UpTo(target, p, i)) && Sound(UpTo(target, p, i + 1)) && UpTo(target, p, i).tx.status.Active?
    ensures UpTo(target, p, i + 1)
      == MatrixStep(target.db, p, Seeding(target, p).owners, p.attacks[i], UpTo(target, p, i))
  {
    var owners, start := Seeding(target, p).owners, Seeding(target, p).tx;
    hide Seeding, MatrixUpTo, MatrixStep, ClearAll;
    SoundAt(target.db, p, owners, start, i, |p.attacks|);
    SoundAt(target.db, p, owners, start, i + 1, |p.attacks|);
    SoundContinues(target.db, p, owners, start, i);
    StepWasActive(target.db, p, owners, p.attacks[i], UpTo(target, p, i));
  }

  /** Attack i of a run without unclear errors, from a matrix that went through so far. */
  lemma EntryShows(target: Target, p: Profile, i: nat)
    requires Shaped(p) && Cooperative(target, p) && i < |p.attacks|
    requires Sound(UpTo(target, p, |p.attacks|)) && GoneThrough(target, p, i, UpTo(target, p, i))
    ensures UpTo(target, p, i).tx.status.Active?
    ensures Attackable(p.attacks[i]) && RefusedInsertAt(target, p, i) && UpdateFitsAt(target, p, i)
    ensures Reachable(target, p, p.attacks[i], Select, OwnerContext(target, p, i))
  {
    var a, m := p.attacks[i], UpTo(target, p, i);
    assert a in p.attacks;
    UpToSteps(target, p, i);
    if i < |p.attacks| - 1 {
      UpToSteps(target, p, i + 1);
    }
    Accepted.KeyStatementsBuild(p, a);
    hide Shaped, Cooperative, Sound, Ahead, Reachable, Exposed, ExposedFor, Leaky, MatrixStep, UpTo, Seeding;
    hide AdversaryContext;
    hide AdversarySession, OwnerSession, SqlSafe.SelectStatement, SqlSafe.DeleteStatement, AnyReached, Attackable;
    hide Builds, Obliging;
    EffectFree(target, p, a);
    AheadIsPlaced(target, p, i, m.tx.session);
    PlacedTable(target, p, i, m.tx.session);
    ExposedIs(target, p, i, m.tx.session);
    SeedingPlaces(target, p, a);
    AimIsSeeded(target, p, a);
    SoundHasNoFailure(m);
    StepShows(target.db, p, Seeding(target, p).owners, a, m);
    BuildsIs(p, a);
  }

  lemma SoundHasNoFailure(m: Matrix)
    requires Sound(m)
    ensures m.failure == None
  {
  }

  lemma {:induction false} SoundGoesThrough(target: Target, p: Profile, n: nat)
    requires Shaped(p) && Cooperative(target, p) && n <= |p.attacks|
    requires Sound(UpTo(target, p, |p.attacks|))
    requires Seeding(target, p).tx.session.settings == target.base.settings + p.owner.settings
    ensures GoneThrough(target, p, n, UpTo(target, p, n))
  {
    if n == 0 {
      hide Shaped, Cooperative, GoneThrough, Sound, Seeding, MatrixUpTo;
      GoneStart(target, p);
    } else {
      hide *;
      SoundGoesThrough(target, p, n - 1);
      EntryShows(target, p, n - 1);
      GoOn(target, p, n - 1, UpTo(target, p, n - 1));
      UpToSteps(target, p, n - 1);
    }
  }

  // ---------- the verdict ----------

  lemma UpToIsFinal(target: Target, p: Profile)
    ensures UpTo(target, p, |p.attacks|) == Final(target, p)
  {
  }

  lemma FailIsExposed(target: Target, p: Profile)
    requires Shaped(p) && Cooperative(target, p) && Reports(target, p, Fail)
    ensures AllAttackable(p) && OwnersSee(target, p) && RefusedInsertLast(target, p) && UpdatesFit(target, p)
    ensures exists i :: 0 <= i < |p.attacks| && Exposed(target, p, i)
  {
    assert p.attacks != [];
    hide Shaped, Cooperative, UpdateFitsAt, Reports, Final, UpTo, Seeding, Attackable, RefusedInsertAt, Reachable;
    hide Exposed;
    hide OwnerContext, GoneThrough, Ahead;
    VerdictFromMatrix(target, p, Fail);
    SeedingIsActive(target, p);
    UpToIsFinal(target, p);
    var e := FailHasLeak(target, p);
    SoundFinal(Final(target, p));
    forall i | 0 <= i < |p.attacks|
      ensures Attackable(p.attacks[i]) && RefusedInsertAt(target, p, i) && UpdateFitsAt(target, p, i)
      ensures Reachable(target, p, p.attacks[i], Select, OwnerContext(target, p, i))
    {
      SoundGoesThrough(target, p, i);
      EntryShows(target, p, i);
    }
    SoundGoesThrough(target, p, |p.attacks|);
    GoneHasNoFailure(target, p, |p.attacks|, Final(target, p));
  }

  lemma SoundFinal(m: Matrix)
    requires m.failure == None && m.controlOK && !Evaluate.Unclear(m.evidence)
    ensures Sound(m)
  {
    forall e | e in m.evidence ensures e.denied || e.error == "" {
      var i :| 0 <= i < |m.evidence| && m.evidence[i] == e;
    }
  }

  lemma LeakIsFail(p: Profile, evidence: seq<Evidence>)
    requires Shaped(p) && Tags(evidence) == AllTags(p.attacks) && ClearAll(evidence) && Leaky(evidence)
    ensures Verdict(p, [], true, evidence) == Fail
  {
    assert p.attacks[0] in p.attacks && GoodEntry(p.attacks[0]);
    hide Shaped, Tags, AllTags, Required;
    TagIsCovered(p.attacks, evidence, p.attacks[0], p.attacks[0].operations[0]);
    forall i | 0 <= i < |Required(p.attacks)| ensures Evaluate.Covers(evidence, Required(p.attacks)[i]) {
      var a := RequiredFrom(p.attacks, Required(p.attacks)[i]);
      TagIsCovered(p.attacks, evidence, a, Required(p.attacks)[i]);
    }
    assert !Evaluate.Unclear(evidence) by {
      forall i | 0 <= i < |evidence| ensures evidence[i].error == "" || evidence[i].denied {
        assert evidence[i] in evidence;
      }
    }
    var e :| e in evidence && Attacks.Leak(e);
    assert !Evaluate.AllDenied(evidence);
    Evaluate.VerdictsAreExact(true, [], Required(p.attacks), evidence);
  }

  lemma ExposedFails(target: Target, p: Profile)
    requires Shaped(p) && Cooperative(target, p)
    requires AllAttackable(p) && OwnersSee(target, p) && RefusedInsertLast(target, p) && UpdatesFit(target, p)
    requires exists i :: 0 <= i < |p.attacks| && Exposed(target, p, i)
    ensures Reports(target, p, Fail)
  {
    var m := Final(target, p);
    assert p.attacks[0] in p.attacks;
    assert target.opens && target.login.Some? && target.begins
      && Preflight.Clear(target.catalog, p, GateConfig(target.login.value));
    assert ExposedBefore(target, p, |p.attacks|);
    hide *;
    SeedingPlaces(target, p, p.attacks[0]);
    SeedingIsActive(target, p);
    MatrixGoes(target, p, |p.attacks|);
    FinalMatrix(target, p);
    GoneHasNoFailure(target, p, |p.attacks|, m);
    CompleteTags(target, p);
    ClearMeans(m.evidence);
    LeakIsFail(p, m.evidence);
    Completed(target, p);
  }

  lemma ClearMeans(evidence: seq<Evidence>)
    requires forall e :: e in evidence ==> e.denied || e.error == ""
    ensures ClearAll(evidence)
  {
  }

  /** For a well shaped profile and a server that refuses nothing but what its policies forbid, the runner reports
      `fail` exactly when the statements can be built, every owner sees its row, no update is refused, a forbidden
      insert comes at most once and last, and some attack is exposed. */
  lemma FailExactly(target: Target, p: Profile)
    requires Shaped(p) && Cooperative(target, p)
    ensures Reports(target, p, Fail) <==>
      && AllAttackable(p) && OwnersSee(target, p) && UpdatesFit(target, p) && RefusedInsertLast(target, p)
      && exists i :: 0 <= i < |p.attacks| && Exposed(target, p, i)
  {
    hide *;
    if Reports(target, p, Fail) {
      FailIsExposed(target, p);
    }
    if AllAttackable(p) && OwnersSee(target, p) && UpdatesFit(target, p) && RefusedInsertLast(target, p)
      && exists i :: 0 <= i < |p.attacks| && Exposed(target, p, i)
    {
      ExposedFails(target, p);
    }
  }

  // ---------- a fail with nothing sent ----------

  /** If the profile lists nothing but unsupported operations, no adversary statement is sent at all. */
  lemma UnsupportedSendsNothing(target: Target, p: Profile)
    requires Reports(target, p, Fail) && forall a, op :: a in p.attacks && op in a.operations ==> !op.Valid()
    ensures forall e :: e in Executed(target, p).report.value.operations ==> e.template == ""
  {
    var _ := FailHasLeak(target, p);
    hide *;
    FinalMatrix(target, p);
    BlankInMatrix(target.db, p, Seeding(target, p).owners, Seeding(target, p).tx, |p.attacks|);
    forall e | e in Executed(target, p).report.value.operations ensures e.template == "" {
      var a := EvidenceHasAttack(target, p, Fail, e);
      BlankHasNoTemplate(Final(target, p).evidence, e);
    }
  }

  lemma BlankHasNoTemplate(evidence: seq<Evidence>, e: Evidence)
    requires UnsupportedIsBlank(evidence) && e in evidence && !e.operation.Valid()
    ensures e.template == ""
  {
  }

  // ---------- examples ----------

  /** The example fails when it is exposed and no update is refused. */
  lemma ExampleFails(target: Target, p: Profile, row: Row, ops: seq<Operation>, taker: string, open: bool)
    requires ExampleProfile(p, row, ops, taker) && ExamplePolicies(target.db, open)
    requires target.base.tables == map[Relation("s", "t") := []]
    requires Shaped(p) && Cooperative(target, p) && AllAttackable(p) && InsertCount(ops) <= 1
    requires Exposed(target, p, 0) && UpdateFitsAt(target, p, 0)
    ensures Reports(target, p, Fail)
  {
    ExampleSupports(p, row, ops, taker);
    ExampleOwned(p, row, ops, taker, OwnerContext(target, p, 0));
    ExampleReached(target, p, row, ops, taker, Select, OwnerContext(target, p, 0));
    OwnerMaySelect(target.db, OwnerContext(target, p, 0), Relation("s", "t"), row, open);
    assert |p.attacks| == 1;
    hide *;
    OnlyAttack(target, p);
    FailExactly(target, p);
  }

  lemma OwnerMaySelect(db: Database, c: Context, rel: Relation, row: Row, open: bool)
    requires ExamplePolicies(db, open) && Owned(c, row)
    ensures Can(db, Select, c, rel, row)
  {
  }

  /** What is asked of every attack, for a single one. */
  lemma OnlyAttack(target: Target, p: Profile)
    requires |p.attacks| == 1 && Reachable(target, p, p.attacks[0], Select, OwnerContext(target, p, 0))
    requires UpdateFitsAt(target, p, 0) && InsertCount(p.attacks[0].operations) <= 1
    ensures OwnersSee(target, p) && UpdatesFit(target, p) && RefusedInsertLast(target, p)
  {
    hide Reachable, OwnerContext, UpdateFitsAt;
    CountsInserts(p.attacks[0].operations);
    hide InsertCount;
  }

  /** Under open policies the example is exposed, and its update fits exactly when the adversary takes the row for
      itself. */
  lemma ExampleFits(target: Target, p: Profile, row: Row, ops: seq<Operation>, taker: string)
    requires ExampleProfile(p, row, ops, taker) && ExamplePolicies(target.db, true)
    requires target.base.tables == map[Relation("s", "t") := []]
    requires Select in ops && Update in ops && !DeletesFirst(ops)
    ensures UpdateFitsAt(target, p, 0) <==> taker == "v"
    ensures Exposed(target, p, 0)
  {
    var c := AdversaryContext(target, p);
    ExampleSupports(p, row, ops, taker);
    ExampleOwned(p, row, ops, taker, c);
    ExampleReached(target, p, row, ops, taker, Select, c);
    ExampleReached(target, p, row, ops, taker, Update, c);
    hide AdversaryContext, RowsFound, Owned, Obliging, DeletesFirst;
    assert Reachable(target, p, p.attacks[0], Update, c);
    hide Aim, SqlSafe.KeyMatches, ExampleProfile;
    assert Select in p.attacks[0].operations;
    assert row in RowsFound(target, p, p.attacks[0]);
  }

  lemma NoDeleteFirst()
    ensures !DeletesFirst(EXAMPLE_OPERATIONS) && Select in EXAMPLE_OPERATIONS && Update in EXAMPLE_OPERATIONS
  {
    assert EXAMPLE_OPERATIONS[1..][0] == Update;
    assert EXAMPLE_OPERATIONS[0] == Select && EXAMPLE_OPERATIONS[1] == Update;
  }

  /** There are fails on a real access, under an update policy that refuses rows of others: the example attacked by all
      four operations, where the adversary takes the row for itself. */
  lemma SomeTargetFails() returns (target: Target, p: Profile)
    ensures WellFormed(p) && Cooperative(target, p) && Reports(target, p, Fail)
    ensures p.attacks != [] && p.attacks[0].operations == EXAMPLE_OPERATIONS
    ensures exists row :: !target.db.updateCheck(AdversaryContext(target, p), Rel(p, p.attacks[0]), row)
  {
    hide Shaped, Cooperative, Reports, ExampleProfile, ExamplePolicies, AllSupported, AllAttackable, Exposed;
    hide UpdateFitsAt, AdversaryContext;
    var row;
    OneInsertIn();
    NoDeleteFirst();
    hide InsertCount, DeletesFirst;
    target, p, row := ExampleTarget(EXAMPLE_OPERATIONS, "v", true);
    ExampleSupports(p, row, EXAMPLE_OPERATIONS, "v");
    ExampleFits(target, p, row, EXAMPLE_OPERATIONS, "v");
    ExampleFails(target, p, row, EXAMPLE_OPERATIONS, "v", true);
    ExampleRefuses(target, p, row, EXAMPLE_OPERATIONS, "v", true);
  }

  lemma ExampleRefuses(target: Target, p: Profile, row: Row, ops: seq<Operation>, taker: string, open: bool)
    requires ExampleProfile(p, row, ops, taker) && ExamplePolicies(target.db, open)
    requires target.base.tables == map[Relation("s", "t") := []]
    ensures p.attacks != [] && !target.db.updateCheck(AdversaryContext(target, p), Rel(p, p.attacks[0]), row)
  {
    ExampleOwned(p, row, ops, taker, AdversaryContext(target, p));
    ExampleReached(target, p, row, ops, taker, Select, AdversaryContext(target, p));
    assert "v"[0] != "o"[0];
    hide Owned, Obliging, AdversaryContext;
  }

  /** A refused update hides what the other operations get: the same target, attacked in the same way but for the
      mutation, which gives the row to a third role, neither fails nor passes, although a select returns its row. */
  lemma SomeLeakIsHidden() returns (target: Target, p: Profile)
    ensures WellFormed(p) && Cooperative(target, p) && p.attacks != []
    ensures Select in p.attacks[0].operations
      && Reachable(target, p, p.attacks[0], Select, AdversaryContext(target, p))
    ensures !Reports(target, p, Fail) && !Reports(target, p, Pass)
  {
    hide Shaped, Cooperative, Reports, ExampleProfile, ExamplePolicies, AllSupported, AllAttackable, Exposed;
    hide UpdateFitsAt, Reachable, AdversaryContext;
    var row;
    OneInsertIn();
    NoDeleteFirst();
    hide InsertCount, DeletesFirst;
    target, p, row := ExampleTarget(EXAMPLE_OPERATIONS, "x", true);
    ExampleSupports(p, row, EXAMPLE_OPERATIONS, "x");
    ExampleFits(target, p, row, EXAMPLE_OPERATIONS, "x");
    ExampleReached(target, p, row, EXAMPLE_OPERATIONS, "x", Select, AdversaryContext(target, p));
    assert "x"[0] != "v"[0];
    assert !UpdatesFit(target, p);
    OpenIsSeen(target.db, AdversaryContext(target, p), Relation("s", "t"), row);
    assert !SecureAt(target, p, 0);
    assert !Secure(target, p);
    hide *;
    FailExactly(target, p);
    PassExactly(target, p);
  }

  lemma OpenIsSeen(db: Database, c: Context, rel: Relation, row: Row)
    requires ExamplePolicies(db, true)
    ensures Can(db, Select, c, rel, row)
  {
  }

  /** And there are fails with nothing sent, on policies that let each role reach its own rows only. */
  lemma SomeFalseAlarm() returns (target: Target, p: Profile)
    ensures Shaped(p) && Cooperative(target, p) && Reports(target, p, Fail) && Secure(target, p)
    ensures forall e :: e in Executed(target, p).report.value.operations ==> e.template == ""
  {
    hide Shaped, Cooperative, Reports, Executed, ExampleProfile, ExamplePolicies, AllSupported, AllAttackable, Secure;
    hide Reachable;
    var row;
    var ops := [Other("truncate")];
    assert ops[1..] == [] && ops[0] in ops;
    target, p, row := ExampleTarget(ops, "v", false);
    ExampleSupports(p, row, ops, "v");
    ExampleIsSecure(target, p, row, ops, "v");
    assert Exposed(target, p, 0) && UpdateFitsAt(target, p, 0);
    ExampleFails(target, p, row, ops, "v", false);
    ReportedIsSome(target, p, Fail);
    UnsupportedSendsNothing(target, p);
  }

  lemma ReportedIsSome(target: Target, p: Profile, o: Outcome)
    requires Reports(target, p, o)
    ensures Executed(target, p).report.Some?
  {
    hide Executed;
  }
}
