/** Fixture inserts (internal/seeder/seeder.go), in profile order; the last row of each table is remembered. */
module Seeder {
  import opened Wrappers
  import opened Ordering
  import opened Domain
  import opened SqlSyntax
  import opened Postgres
  import SqlSafe

  type OwnerRows = map<string, Row>

  datatype Failure = BadFixture(error: SqlSafe.BuildError) | SeedFailed(table: string)

  datatype Seeded = Seeded(tx: Tx, owners: OwnerRows, failure: Option<Failure>)

  ghost function FixtureStatement(schema: string, f: Fixture): Result<SqlSafe.Statement, SqlSafe.BuildError> {
    SqlSafe.InsertStatement(schema, f.table, f.ownerRow, SortedElements(f.ownerRow.Keys))
  }

  ghost function SeedFrom(db: Database, schema: string, fixtures: seq<Fixture>, s: Seeded): Seeded
    decreases fixtures
  {
    if fixtures == [] then s
    else
      var f := fixtures[0];
      match FixtureStatement(schema, f)
      case Err(e) => s.(failure := Some(BadFixture(e)))
      case Ok(statement) =>
        var next := Send(db, s.tx, statement.sql, statement.args);
        if LastReply(next).Failed() then Seeded(next, s.owners, Some(SeedFailed(f.table)))
        else SeedFrom(db, schema, fixtures[1..], Seeded(next, s.owners[f.table := f.ownerRow], None))
  }

  ghost function SeedAll(db: Database, schema: string, fixtures: seq<Fixture>, t: Tx): Seeded {
    SeedFrom(db, schema, fixtures, Seeded(t, map[], None))
  }

  method Seed(tx: Transaction, schema: string, fixtures: seq<Fixture>) returns (owners: OwnerRows,
          failure: Option<Failure>)
    modifies tx
    ensures Seeded(tx.State(), owners, failure) == SeedAll(tx.db, schema, fixtures, old(tx.State()))
  {
    hide Send, SqlSafe.InsertStatement;
    owners := map[];
    for i := 0 to |fixtures|
      invariant SeedFrom(tx.db, schema, fixtures[i..], Seeded(tx.State(), owners, None))
        == SeedAll(tx.db, schema, fixtures, old(tx.State()))
    {
      var f := fixtures[i];
      assert fixtures[i..][1..] == fixtures[i + 1..];
      var columns := SortKeys(f.ownerRow.Keys);
      var statement := SqlSafe.Insert(schema, f.table, f.ownerRow, columns);
      if statement.Err? {
        return owners, Some(BadFixture(statement.error));
      }
      var reply := tx.Exec(statement.value.sql, statement.value.args);
      if reply.Failed() {
        return owners, Some(SeedFailed(f.table));
      }
      owners := owners[f.table := f.ownerRow];
    }
    failure := None;
  }

  /** The inserts of some fixtures that can all be built. */
  ghost function Inserts(schema: string, fixtures: seq<Fixture>): seq<(string, seq<Value>)>
    requires forall f :: f in fixtures ==> FixtureStatement(schema, f).Ok?
  {
    seq(|fixtures|, i requires 0 <= i < |fixtures| =>
      var s := FixtureStatement(schema, fixtures[i]).value; (s.sql, s.args))
  }

  /** What became of a seeding.  The inserts of the first k fixtures were accepted, in order.  A failure comes from the
      next fixture: its insert cannot be built, and was not sent, or was sent and failed; nothing followed it. */
  ghost predicate SeededTo(schema: string, fixtures: seq<Fixture>, before: seq<Entry>, after: seq<Entry>,
          failure: Option<Failure>, k: nat) {
    && k <= |fixtures| && (forall f :: f in fixtures[..k] ==> FixtureStatement(schema, f).Ok?)
    && match failure
       case None => k == |fixtures| && SentInOrder(before, after, Inserts(schema, fixtures[..k]), k, false)
       case Some(BadFixture(e)) =>
         && k < |fixtures| && FixtureStatement(schema, fixtures[k]) == Result.Err(e)
         && SentInOrder(before, after, Inserts(schema, fixtures[..k]), k, false)
       case Some(SeedFailed(table)) =>
         && k < |fixtures| && table == fixtures[k].table && FixtureStatement(schema, fixtures[k]).Ok?
         && (forall f :: f in fixtures[..k + 1] ==> FixtureStatement(schema, f).Ok?)
         && SentInOrder(before, after, Inserts(schema, fixtures[..k + 1]), k, true)
  }

  lemma {:induction false} SeedTells(db: Database, schema: string, fixtures: seq<Fixture>, s: Seeded) returns (k: nat)
    requires s.failure == None
    ensures var r := SeedFrom(db, schema, fixtures, s);
      SeededTo(schema, fixtures, s.tx.log, r.tx.log, r.failure, k)
    decreases fixtures
  {
    hide Send, FixtureStatement;
    k := 0;
    if fixtures == [] {
      NothingSent(s.tx.log, []);
    } else if FixtureStatement(schema, fixtures[0]).Err? {
      NothingSent(s.tx.log, []);
    } else {
      var f := fixtures[0];
      var statement := FixtureStatement(schema, f).value;
      var next := Send(db, s.tx, statement.sql, statement.args);
      SendLogs(db, s.tx, statement.sql, statement.args);
      var e := Entry(statement.sql, statement.args, s.tx.session, LastReply(next));
      if LastReply(next).Failed() {
        assert fixtures[..1] == [f];
        SentFirst(s.tx.log, e, [], Inserts(schema, [f]), 0, true);
      } else {
        var rest := Seeded(next, s.owners[f.table := f.ownerRow], None);
        var n := SeedTells(db, schema, fixtures[1..], rest);
        SeededFurther(schema, fixtures, s.tx.log, e, SeedFrom(db, schema, fixtures[1..], rest).tx.log,
          SeedFrom(db, schema, fixtures[1..], rest).failure, n);
        k := n + 1;
      }
    }
  }

  lemma SeededFurther(schema: string, fixtures: seq<Fixture>, before: seq<Entry>, e: Entry, after: seq<Entry>,
        failure: Option<Failure>, n: nat)
    requires fixtures != [] && FixtureStatement(schema, fixtures[0]).Ok? && !e.reply.Failed()
    requires var s := FixtureStatement(schema, fixtures[0]).value; (e.sql, e.args) == (s.sql, s.args)
    requires SeededTo(schema, fixtures[1..], before + [e], after, failure, n)
    ensures SeededTo(schema, fixtures, before, after, failure, n + 1)
  {
    hide FixtureStatement, SentInOrder;
    forall m: nat | n <= m <= |fixtures[1..]| && forall f :: f in fixtures[1..][..m] ==> FixtureStatement(schema, f).Ok?
      ensures forall f :: f in fixtures[..m + 1] ==> FixtureStatement(schema, f).Ok?
      ensures Inserts(schema, fixtures[..m + 1])[1..] == Inserts(schema, fixtures[1..][..m])
    {
      assert fixtures[..m + 1] == [fixtures[0]] + fixtures[1..][..m];
    }
    var m := if failure.Some? && failure.value.SeedFailed? then n + 1 else n;
    SentFirst(before, e, after, Inserts(schema, fixtures[..m + 1]), n, m == n + 1);
  }

  /** The remembered rows, fixture by fixture. */
  function OwnersAfter(fixtures: seq<Fixture>, owners: OwnerRows): OwnerRows
    decreases fixtures
  {
    if fixtures == [] then owners else OwnersAfter(fixtures[1..], owners[fixtures[0].table := fixtures[0].ownerRow])
  }

  /** Is i the last fixture of its table? */
  predicate LastOfTable(fixtures: seq<Fixture>, i: int) {
    0 <= i < |fixtures| && forall k :: i < k < |fixtures| ==> fixtures[k].table != fixtures[i].table
  }

  lemma {:induction false} OwnersElsewhere(fixtures: seq<Fixture>, owners: OwnerRows, table: string)
    requires forall k :: 0 <= k < |fixtures| ==> fixtures[k].table != table
    ensures table in OwnersAfter(fixtures, owners) <==> table in owners
    ensures table in owners ==> OwnersAfter(fixtures, owners)[table] == owners[table]
    decreases fixtures
  {
    if fixtures != [] {
      OwnersElsewhere(fixtures[1..], owners[fixtures[0].table := fixtures[0].ownerRow], table);
    }
  }

  /** The remembered row of a table is its last fixture's. */
  lemma {:induction false} OwnerIsLast(fixtures: seq<Fixture>, owners: OwnerRows, i: nat)
    requires LastOfTable(fixtures, i)
    ensures fixtures[i].table in OwnersAfter(fixtures, owners)
    ensures OwnersAfter(fixtures, owners)[fixtures[i].table] == fixtures[i].ownerRow
    decreases fixtures
  {
    var next := owners[fixtures[0].table := fixtures[0].ownerRow];
    if i == 0 {
      OwnersElsewhere(fixtures[1..], next, fixtures[0].table);
    } else {
      OwnerIsLast(fixtures[1..], next, i - 1);
    }
  }

  /** After a successful seeding every statement was accepted, only tables changed, and the owners are as above. */
  lemma {:induction false} SeedSucceeds(db: Database, schema: string, fixtures: seq<Fixture>, s: Seeded)
    requires s.failure == None && SeedFrom(db, schema, fixtures, s).failure == None
    ensures var r := SeedFrom(db, schema, fixtures, s);
      && AllAccepted(s.tx, r.tx) && r.owners == OwnersAfter(fixtures, s.owners)
      && r.tx == s.tx.(log := r.tx.log, session := s.tx.session.(tables := r.tx.session.tables))
    decreases fixtures
  {
    if fixtures == [] {
      AllAcceptedReflexive(s.tx);
    } else {
      var f := fixtures[0];
      var statement := FixtureStatement(schema, f).value;
      var next := Seeded(Send(db, s.tx, statement.sql, statement.args), s.owners[f.table := f.ownerRow], None);
      FixtureAccepted(db, schema, f, s.tx);
      hide Send, AllAccepted, FixtureStatement;
      SeedSucceeds(db, schema, fixtures[1..], next);
      AllAcceptedTransitive(s.tx, next.tx, SeedFrom(db, schema, fixtures[1..], next).tx);
    }
  }

  lemma FixtureAccepted(db: Database, schema: string, f: Fixture, t: Tx)
    requires FixtureStatement(schema, f).Ok?
    requires var s := FixtureStatement(schema, f).value; !LastReply(Send(db, t, s.sql, s.args)).Failed()
    ensures var s := FixtureStatement(schema, f).value;
      var next := Send(db, t, s.sql, s.args);
      && t.status.Active? && AllAccepted(t, next)
      && next == t.(log := next.log, session := t.session.(tables := next.session.tables))
  {
    var s := FixtureStatement(schema, f).value;
    SqlSafe.InsertMeansRow(schema, f.table, f.ownerRow);
    var q := Parse(s.sql).value;
    hide Parse, SqlSafe.InsertStatement, FixtureStatement, RunActive;
    AcceptedOnActive(db, t, s.sql, s.args);
    DataChangesTables(db, |t.log|, t.session, t.points, q, s.args);
  }
}
