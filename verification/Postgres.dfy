/** The server side that the program talks to: one connection's transaction, with row security, savepoints and
    the aborted state.  It reads the statements' text; row counts come from the stored rows. */
module Postgres {
  import opened Wrappers
  import opened Domain
  import opened SqlSyntax
  import opened Ordering
  import SqlSafe

  datatype Relation = Relation(schema: string, table: string)

  type Tables = map<Relation, seq<Row>>

  /** What a policy expression can see of the session. */
  datatype Context = Context(role: string, settings: map<string, string>)

  /** Everything a transaction can change and a rollback restores. */
  datatype Session = Session(tables: Tables, role: string, settings: map<string, string>, path: string) {
    function Ctx(): Context {
      Context(role, settings)
    }

    function Stored(rel: Relation): seq<Row> {
      if rel in tables then tables[rel] else []
    }
  }

  type SqlState = string

  const DENIED: SqlState := "42501"
  const IN_FAILED_TRANSACTION: SqlState := "25P02"
  const NO_SUCH_SAVEPOINT: SqlState := "3B001"
  const SYNTAX_ERROR: SqlState := "42601"
  const UNDEFINED_TABLE: SqlState := "42P01"

  /** What the server makes of a statement outside the program's own forms: a new session, or a refusal. */
  datatype ForeignReply = Granted(session: Session, count: nat) | Refused(code: SqlState)

  /** The target: its policies as predicates on rows, every other ground on which the server may refuse the n-th
      statement (privileges, constraints, types, locks, timeouts), what statements in other forms do, its triggers and
      rules, and which statements never reach it. */
  datatype Database = Database(
    visible: (Context, Relation, Row) -> bool,
    updatable: (Context, Relation, Row) -> bool,
    deletable: (Context, Relation, Row) -> bool,
    insertCheck: (Context, Relation, Row) -> bool,
    updateCheck: (Context, Relation, Row) -> bool,
    refuses: (nat, Session, Sql, seq<Value>) -> Option<SqlState>,
    foreign: (nat, Session, string, seq<Value>) -> ForeignReply,
    effectful: Relation -> bool,
    effect: (Relation, Tables) -> Tables,
    lost: nat -> bool) {

    /** The rows an adversary, or anyone, can reach by each operation. */
    predicate CanSee(c: Context, rel: Relation, row: Row) {
      visible(c, rel, row)
    }

    predicate CanUpdate(c: Context, rel: Relation, row: Row) {
      visible(c, rel, row) && updatable(c, rel, row)
    }

    predicate CanDelete(c: Context, rel: Relation, row: Row) {
      visible(c, rel, row) && deletable(c, rel, row)
    }

    /** Triggers and rules run after every data change statement, whatever it touched. */
    function AfterChange(rel: Relation, tables: Tables): Tables {
      if effectful(rel) then effect(rel, tables) else tables
    }
  }

  datatype Status = Active | Aborted | Closed

  datatype Point = Point(name: string, saved: Session)

  /** A query's reply is its whole result; a client error means the statement never reached the server. */
  datatype Reply =
    | Rows(count: nat)
    | Affected(count: nat)
    | Done
    | ServerError(code: SqlState)
    | ClientError
  {
    predicate Failed() {
      ServerError? || ClientError?
    }
  }

  function ErrorText(r: Reply): (text: string)
    requires r.Failed()
    ensures text != ""
  {
    if r.ServerError? then "ERROR (SQLSTATE " + r.code + ")" else "statement could not be sent"
  }

  /** One statement of the transaction: its text, its arguments, the session it met, and the reply. */
  datatype Entry = Entry(sql: string, args: seq<Value>, before: Session, reply: Reply)

  /** A transaction; `outer` is the session as it was at BEGIN. */
  datatype Tx = Tx(outer: Session, session: Session, status: Status, points: seq<Point>, log: seq<Entry>)

  function Begin(s: Session): Tx {
    Tx(s, s, Active, [], [])
  }

  // ---------- statements on an active transaction ----------

  datatype Effect = Accepted(session: Session, points: seq<Point>, reply: Reply) | Rejected(code: SqlState)

  function Filter(rows: seq<Row>, keep: Row -> bool): (r: seq<Row>)
    ensures |r| <= |rows|
  {
    if rows == [] then [] else (if keep(rows[0]) then [rows[0]] else []) + Filter(rows[1..], keep)
  }

  function MapRows(rows: seq<Row>, change: Row -> Row): (r: seq<Row>)
    ensures |r| == |rows| && forall i :: 0 <= i < |rows| ==> r[i] == change(rows[i])
  {
    seq(|rows|, i requires 0 <= i < |rows| => change(rows[i]))
  }

  function SelectReached(db: Database, s: Session, rel: Relation, where: seq<Condition>,
          args: seq<Value>): Row -> bool {
    row => SqlSafe.Holds(where, args, row) && db.CanSee(s.Ctx(), rel, row)
  }

  function UpdateReached(db: Database, s: Session, rel: Relation, where: seq<Condition>,
          args: seq<Value>): Row -> bool {
    row => SqlSafe.Holds(where, args, row) && db.CanUpdate(s.Ctx(), rel, row)
  }

  function DeleteReached(db: Database, s: Session, rel: Relation, where: seq<Condition>,
          args: seq<Value>): Row -> bool {
    row => SqlSafe.Holds(where, args, row) && db.CanDelete(s.Ctx(), rel, row)
  }

  function Change(db: Database, s: Session, points: seq<Point>, rel: Relation, rows: seq<Row>, count: nat): Effect {
    Accepted(s.(tables := db.AfterChange(rel, s.tables[rel := rows])), points, Affected(count))
  }

  function RunUpdate(db: Database, s: Session, points: seq<Point>, rel: Relation, column: string, value: Value,
                     reached: Row -> bool): Effect {
    var rows := Filter(s.Stored(rel), reached);
    if exists i :: 0 <= i < |rows| && !db.updateCheck(s.Ctx(), rel, rows[i][column := value]) then Rejected(DENIED)
    else
      var changed := MapRows(s.Stored(rel), row => if reached(row) then row[column := value] else row);
      Change(db, s, points, rel, changed, |rows|)
  }

  /** The last savepoint of a name. */
  function FindPoint(points: seq<Point>, name: string): (i: Option<nat>)
    ensures i.Some? ==> i.value < |points| && points[i.value].name == name
    ensures i.None? ==> forall k :: 0 <= k < |points| ==> points[k].name != name
    ensures i.Some? ==> forall k :: i.value < k < |points| ==> points[k].name != name
  {
    if points == [] then None
    else if points[|points| - 1].name == name then Some(|points| - 1)
    else FindPoint(points[..|points| - 1], name)
  }

  function RelationOf(q: Sql): Option<Relation> {
    match q
    case SelectRows(schema, table, _) => Some(Relation(schema, table))
    case DeleteRows(schema, table, _) => Some(Relation(schema, table))
    case UpdateRows(schema, table, _, _, _) => Some(Relation(schema, table))
    case InsertRow(schema, table, _, _) => Some(Relation(schema, table))
    case _ => None
  }

  function RunData(db: Database, n: nat, s: Session, points: seq<Point>, q: Sql, args: seq<Value>): (e: Effect)
    ensures e.Accepted? ==> !e.reply.Failed()
  {
    if db.refuses(n, s, q, args).Some? then Rejected(db.refuses(n, s, q, args).value)
    else if RelationOf(q).Some? && RelationOf(q).value !in s.tables then Rejected(UNDEFINED_TABLE)
    else match q
      case SelectRows(schema, table, where) =>
        var rel := Relation(schema, table);
        Accepted(s, points, Rows(|Filter(s.Stored(rel), SelectReached(db, s, rel, where, args))|))
      case DeleteRows(schema, table, where) =>
        var rel := Relation(schema, table);
        var reached := DeleteReached(db, s, rel, where, args);
        Change(db, s, points, rel, Filter(s.Stored(rel), row => !reached(row)), |Filter(s.Stored(rel), reached)|)
      case UpdateRows(schema, table, column, mark, where) =>
        var rel := Relation(schema, table);
        RunUpdate(db, s, points, rel, column, SqlSafe.Bound(args, mark), UpdateReached(db, s, rel, where, args))
      case InsertRow(schema, table, columns, marks) =>
        var rel := Relation(schema, table);
        var row := SqlSafe.InsertedRow(columns, marks, args);
        if db.insertCheck(s.Ctx(), rel, row) then Change(db, s, points, rel, s.Stored(rel) + [row], 1)
        else Rejected(DENIED)
      case SetSearchPath(schema) => Accepted(s.(path := schema), points, Done)
      case SetRole(role) => Accepted(s.(role := role), points, Done)
      case SetConfig =>
        if |args| == 2 && args[0].Datum? && args[1].Datum?
        then Accepted(s.(settings := s.settings[args[0].text := args[1].text]), points, Rows(1))
        else Rejected(SYNTAX_ERROR)
      case Foreign(text) =>
        (match db.foreign(n, s, text, args)
         case Granted(session, count) => Accepted(session, points, Affected(count))
         case Refused(code) => Rejected(code))
      case _ => Rejected(SYNTAX_ERROR)
  }

  /** What the server reads. */
  function Understood(sql: string): Sql {
    match Parse(sql)
    case Some(q) => q
    case None => Foreign(sql)
  }

  function RunActive(db: Database, n: nat, s: Session, points: seq<Point>, q: Sql, args: seq<Value>): (e: Effect)
    ensures e.Accepted? ==> !e.reply.Failed()
  {
    match q
    case Savepoint(name) => Accepted(s, points + [Point(name, s)], Done)
    case RollbackTo(name) => RunRollbackTo(points, name, NO_SUCH_SAVEPOINT)
    case Release(name) =>
      (match FindPoint(points, name)
       case None => Rejected(NO_SUCH_SAVEPOINT)
       case Some(i) => Accepted(s, points[..i], Done))
    case data => RunData(db, n, s, points, data, args)
  }

  function RunRollbackTo(points: seq<Point>, name: string, otherwise: SqlState): Effect {
    match FindPoint(points, name)
    case None => Rejected(otherwise)
    case Some(i) => Accepted(points[i].saved, points[..i + 1], Done)
  }

  /** In the aborted state only a rollback to a known savepoint is accepted. */
  function RunAborted(points: seq<Point>, q: Option<Sql>): (e: Effect)
    ensures e.Accepted? ==> !e.reply.Failed()
    ensures e.Accepted? || (e.code == NO_SUCH_SAVEPOINT && q.Some? && q.value.RollbackTo?) || e.code
      == IN_FAILED_TRANSACTION
  {
    match q
    case Some(RollbackTo(name)) => RunRollbackTo(points, name, NO_SUCH_SAVEPOINT)
    case _ => Rejected(IN_FAILED_TRANSACTION)
  }

  function Answer(db: Database, t: Tx, sql: string, args: seq<Value>): Effect
    requires !t.status.Closed?
  {
    if t.status.Active? then RunActive(db, |t.log|, t.session, t.points, Understood(sql), args)
    else RunAborted(t.points, Parse(sql))
  }

  function Logged(t: Tx, sql: string, args: seq<Value>, reply: Reply): Tx {
    t.(log := t.log + [Entry(sql, args, t.session, reply)])
  }

  /** Sends one statement. */
  function Send(db: Database, t: Tx, sql: string, args: seq<Value>): (r: Tx)
    ensures |r.log| == |t.log| + 1 && r.log[..|t.log|] == t.log && r.outer == t.outer
  {
    if db.lost(|t.log|) || t.status.Closed? then Logged(t, sql, args, ClientError)
    else match Answer(db, t, sql, args)
      case Accepted(session, points, reply) => Logged(t, sql, args, reply).(session := session, points := points,
        status := Active)
      case Rejected(code) => Logged(t, sql, args, ServerError(code)).(status := Aborted)
  }

  /** The reply to the last statement. */
  function LastReply(t: Tx): Reply
    requires t.log != []
  {
    t.log[|t.log| - 1].reply
  }

  lemma SendLogs(db: Database, t: Tx, sql: string, args: seq<Value>)
    ensures Send(db, t, sql, args).log == t.log + [Entry(sql, args, t.session, LastReply(Send(db, t, sql, args)))]
  {
    hide Parse, RunActive, RunAborted;
  }

  /** The statements went out in order, the first k of them accepted; then the next one failed, if one did, and
      nothing more was sent. */
  ghost predicate SentInOrder(before: seq<Entry>, after: seq<Entry>, statements: seq<(string, seq<Value>)>, k: nat,
          failed: bool) {
    && k <= |statements| && (failed ==> k < |statements|)
    && before <= after && |after| == |before| + k + (if failed then 1 else 0)
    && forall j :: |before| <= j < |after| ==>
         && (after[j].sql, after[j].args) == statements[j - |before|]
         && (after[j].reply.Failed() <==> j == |before| + k)
  }

  lemma NothingSent(log: seq<Entry>, statements: seq<(string, seq<Value>)>)
    ensures SentInOrder(log, log, statements, 0, false)
  {
  }

  /** One statement more in front. */
  lemma SentFirst(before: seq<Entry>, e: Entry, after: seq<Entry>, statements: seq<(string, seq<Value>)>, k: nat,
          failed: bool)
    requires statements != [] && (e.sql, e.args) == statements[0]
    ensures e.reply.Failed() ==> SentInOrder(before, before + [e], statements, 0, true)
    ensures !e.reply.Failed() && SentInOrder(before + [e], after, statements[1..], k, failed) ==>
      SentInOrder(before, after, statements, k + 1, failed)
  {
    if !e.reply.Failed() && SentInOrder(before + [e], after, statements[1..], k, failed) {
      assert after[|before|] == (before + [e])[|before|];
      forall j | |before| < j < |after|
        ensures (after[j].sql, after[j].args) == statements[j - |before|]
        ensures after[j].reply.Failed() <==> j == |before| + k + 1
      {
        assert statements[1..][j - |before + [e]|] == statements[j - |before|];
      }
    }
  }

  /** The log only grows, and nothing in the new part failed. */
  ghost predicate AllAccepted(t: Tx, t': Tx) {
    t.log <= t'.log && forall k :: |t.log| <= k < |t'.log| ==> !t'.log[k].reply.Failed()
  }

  lemma AllAcceptedReflexive(t: Tx)
    ensures AllAccepted(t, t)
  {
  }

  lemma AllAcceptedTransitive(a: Tx, b: Tx, c: Tx)
    requires AllAccepted(a, b) && AllAccepted(b, c)
    ensures AllAccepted(a, c)
  {
    assert forall k :: |a.log| <= k < |b.log| ==> c.log[k] == b.log[k];
  }

  /** A statement, other than a rollback to a savepoint, is accepted only on an active transaction. */
  lemma AcceptedOnActive(db: Database, t: Tx, sql: string, args: seq<Value>)
    requires !LastReply(Send(db, t, sql, args)).Failed()
    requires Parse(sql).Some? ==> !Parse(sql).value.RollbackTo?
    ensures t.status.Active? && AllAccepted(t, Send(db, t, sql, args))
    ensures RunActive(db, |t.log|, t.session, t.points, Understood(sql), args).Accepted?
    ensures var e := RunActive(db, |t.log|, t.session, t.points, Understood(sql), args);
      Send(db, t, sql, args) == Logged(t, sql, args, e.reply).(session := e.session, points := e.points)
  {
    hide Parse, RunActive;
  }

  /** Row statements change nothing but the tables. */
  lemma DataChangesTables(db: Database, n: nat, s: Session, points: seq<Point>, q: Sql, args: seq<Value>)
    requires RelationOf(q).Some? && RunActive(db, n, s, points, q, args).Accepted?
    ensures var e := RunActive(db, n, s, points, q, args);
      && e.session == s.(tables := e.session.tables) && e.points == points
      && db.refuses(n, s, q, args) == None && RelationOf(q).value in s.tables
  {
    hide Filter, MapRows, SelectReached, UpdateReached, DeleteReached, SqlSafe.InsertedRow, SqlSafe.Bound;
  }

  // ---------- what the key statements reach ----------

  lemma {:induction false} FilterFinds(rows: seq<Row>, keep: Row -> bool)
    ensures |Filter(rows, keep)| > 0 <==> exists r :: r in rows && keep(r)
    ensures forall r :: r in Filter(rows, keep) <==> r in rows && keep(r)
  {
    if rows != [] {
      FilterFinds(rows[1..], keep);
      assert rows == [rows[0]] + rows[1..];
    }
  }

  lemma {:induction false} FilterAll(rows: seq<Row>, keep: Row -> bool)
    requires forall r :: r in rows ==> keep(r)
    ensures Filter(rows, keep) == rows
  {
    if rows != [] {
      FilterAll(rows[1..], keep);
      assert rows == [rows[0]] + rows[1..];
    }
  }

  predicate Can(db: Database, op: Operation, c: Context, rel: Relation, row: Row) {
    match op
    case Select => db.CanSee(c, rel, row)
    case Update => db.CanUpdate(c, rel, row)
    case Delete => db.CanDelete(c, rel, row)
    case _ => false
  }

  /** A stored row has the configured key, and the session can reach it by the operation. */
  predicate Reached(db: Database, op: Operation, s: Session, rel: Relation, keys: seq<string>, values: Row, row: Row) {
    row in s.Stored(rel) && SqlSafe.KeyMatches(keys, values, row) && Can(db, op, s.Ctx(), rel, row)
  }

  ghost predicate AnyReached(db: Database, op: Operation, s: Session, rel: Relation, keys: seq<string>, values: Row) {
    exists row :: Reached(db, op, s, rel, keys, values, row)
  }

  /** A matcher that means "has the key and can be reached" picks some row exactly when one is reached. */
  ghost predicate Means(reached: Row -> bool, db: Database, op: Operation, s: Session, rel: Relation,
          keys: seq<string>, values: Row) {
    forall row :: reached(row) <==> SqlSafe.KeyMatches(keys, values, row) && Can(db, op, s.Ctx(), rel, row)
  }

  lemma PicksReached(reached: Row -> bool, db: Database, op: Operation, s: Session, rel: Relation,
          keys: seq<string>, values: Row)
    requires Means(reached, db, op, s, rel, keys, values)
    ensures |Filter(s.Stored(rel), reached)| > 0 <==> AnyReached(db, op, s, rel, keys, values)
    ensures |Filter(s.Stored(rel), reached)| == 0 ==> forall row :: row in s.Stored(rel) ==> !reached(row)
  {
    hide Filter, SqlSafe.KeyMatches, Can;
    FilterFinds(s.Stored(rel), reached);
    if |Filter(s.Stored(rel), reached)| > 0 {
      var row :| row in s.Stored(rel) && reached(row);
      assert Reached(db, op, s, rel, keys, values, row);
    }
    if AnyReached(db, op, s, rel, keys, values) {
      var row :| Reached(db, op, s, rel, keys, values, row);
      assert row in s.Stored(rel) && reached(row);
    }
  }

  lemma KeyRead(schema: string, table: string, keys: seq<string>, values: Row)
    requires SqlSafe.SelectStatement(schema, table, keys, values).Ok?
    ensures SqlSafe.DeleteStatement(schema, table, keys, values).Ok?
    ensures var s := SqlSafe.SelectStatement(schema, table, keys, values).value;
      var d := SqlSafe.DeleteStatement(schema, table, keys, values).value;
      && Parse(s.sql) == Some(SelectRows(schema, table, Conditions(keys, 1)))
      && Parse(d.sql) == Some(DeleteRows(schema, table, Conditions(keys, 1)))
  {
    SqlSafe.KeyStatementsMeanKey(schema, table, keys, values, map[]);
  }

  lemma SelectMeans(db: Database, s: Session, schema: string, table: string, keys: seq<string>, values: Row)
    requires SqlSafe.SelectStatement(schema, table, keys, values).Ok?
    ensures var args := SqlSafe.SelectStatement(schema, table, keys, values).value.args;
      var rel := Relation(schema, table);
      && Means(SelectReached(db, s, rel, Conditions(keys, 1), args), db, Select, s, rel, keys, values)
      && Means(DeleteReached(db, s, rel, Conditions(keys, 1), args), db, Delete, s, rel, keys, values)
  {
    var args := SqlSafe.SelectStatement(schema, table, keys, values).value.args;
    forall row ensures SqlSafe.Holds(Conditions(keys, 1), args, row) <==> SqlSafe.KeyMatches(keys, values, row) {
      SqlSafe.KeyStatementsMeanKey(schema, table, keys, values, row);
    }
    hide SqlSafe.SelectStatement, SqlSafe.Holds, SqlSafe.KeyMatches, Conditions;
  }

  lemma UpdateMeans(db: Database, s: Session, schema: string, table: string, keys: seq<string>, values: Row,
          mutation: Row)
    requires SqlSafe.UpdateStatement(schema, table, keys, values, mutation).Ok?
    ensures var args := SqlSafe.UpdateStatement(schema, table, keys, values, mutation).value.args;
      var rel := Relation(schema, table);
      Means(UpdateReached(db, s, rel, Conditions(keys, 2), args), db, Update, s, rel, keys, values)
  {
    var args := SqlSafe.UpdateStatement(schema, table, keys, values, mutation).value.args;
    forall row ensures SqlSafe.Holds(Conditions(keys, 2), args, row) <==> SqlSafe.KeyMatches(keys, values, row) {
      SqlSafe.UpdateMeansKey(schema, table, keys, values, mutation, row);
    }
    hide SqlSafe.UpdateStatement, SqlSafe.Holds, SqlSafe.KeyMatches, Conditions;
  }

  /** The tables after a change statement that reached no row. */
  ghost predicate Undisturbed(db: Database, rel: Relation, before: Session, after: Session) {
    !db.effectful(rel) ==> after == before
  }

  /** What an accepted SELECT reports of the rows its matcher means. */
  lemma SelectCounts(db: Database, n: nat, s: Session, points: seq<Point>, rel: Relation, where: seq<Condition>,
          args: seq<Value>, keys: seq<string>, values: Row)
    requires Means(SelectReached(db, s, rel, where, args), db, Select, s, rel, keys, values)
    requires RunActive(db, n, s, points, SelectRows(rel.schema, rel.table, where), args).Accepted?
    ensures var e := RunActive(db, n, s, points, SelectRows(rel.schema, rel.table, where), args);
      e.session == s && e.points == points && e.reply.Rows? && (e.reply.count > 0 <==> AnyReached(db, Select, s,
        rel, keys, values))
  {
    PicksReached(SelectReached(db, s, rel, where, args), db, Select, s, rel, keys, values);
    hide Filter, Means, AnyReached, SelectReached;
  }

  lemma DeleteCounts(db: Database, n: nat, s: Session, points: seq<Point>, rel: Relation, where: seq<Condition>,
          args: seq<Value>, keys: seq<string>, values: Row)
    requires Means(DeleteReached(db, s, rel, where, args), db, Delete, s, rel, keys, values)
    requires RunActive(db, n, s, points, DeleteRows(rel.schema, rel.table, where), args).Accepted?
    ensures var e := RunActive(db, n, s, points, DeleteRows(rel.schema, rel.table, where), args);
      && e.points == points && e.reply.Affected?
      && (e.reply.count > 0 <==> AnyReached(db, Delete, s, rel, keys, values))
      && (e.reply.count == 0 ==> Undisturbed(db, rel, s, e.session))
  {
    var reached := DeleteReached(db, s, rel, where, args);
    PicksReached(reached, db, Delete, s, rel, keys, values);
    hide Filter, Means, AnyReached, DeleteReached;
    if |Filter(s.Stored(rel), reached)| == 0 {
      FilterAll(s.Stored(rel), row => !reached(row));
      assert rel in s.tables ==> s.tables[rel := s.Stored(rel)] == s.tables;
    }
  }

  lemma UpdateCounts(db: Database, n: nat, s: Session, points: seq<Point>, rel: Relation, column: string,
          where: seq<Condition>, args: seq<Value>, keys: seq<string>, values: Row)
    requires Means(UpdateReached(db, s, rel, where, args), db, Update, s, rel, keys, values)
    requires RunActive(db, n, s, points, UpdateRows(rel.schema, rel.table, column, 1, where), args).Accepted?
    ensures var e := RunActive(db, n, s, points, UpdateRows(rel.schema, rel.table, column, 1, where), args);
      && e.points == points && e.reply.Affected?
      && (e.reply.count > 0 <==> AnyReached(db, Update, s, rel, keys, values))
      && (e.reply.count == 0 ==> Undisturbed(db, rel, s, e.session))
  {
    var reached := UpdateReached(db, s, rel, where, args);
    PicksReached(reached, db, Update, s, rel, keys, values);
    hide Filter, Means, AnyReached, UpdateReached;
    var value := SqlSafe.Bound(args, 1);
    if |Filter(s.Stored(rel), reached)| == 0 {
      assert MapRows(s.Stored(rel), row => if reached(row) then row[column := value] else row) == s.Stored(rel);
      assert rel in s.tables ==> s.tables[rel := s.Stored(rel)] == s.tables;
    }
  }

  /** A SELECT built from a key returns rows exactly when it reaches one, and changes nothing. */
  lemma SelectStatementRuns(db: Database, t: Tx, schema: string, table: string, keys: seq<string>, values: Row)
    requires SqlSafe.SelectStatement(schema, table, keys, values).Ok?
    requires var s := SqlSafe.SelectStatement(schema, table, keys, values).value;
      !LastReply(Send(db, t, s.sql, s.args)).Failed()
    ensures var s := SqlSafe.SelectStatement(schema, table, keys, values).value;
      var next := Send(db, t, s.sql, s.args);
      && t.status.Active? && AllAccepted(t, next) && next == t.(log := next.log) && LastReply(next).Rows?
      && (LastReply(next).count > 0 <==> AnyReached(db, Select, t.session, Relation(schema, table), keys, values))
  {
    var s := SqlSafe.SelectStatement(schema, table, keys, values).value;
    KeyRead(schema, table, keys, values);
    SelectMeans(db, t.session, schema, table, keys, values);
    hide Parse, SqlSafe.SelectStatement, RunActive, Means, SelectReached, AnyReached;
    AcceptedOnActive(db, t, s.sql, s.args);
    SelectCounts(db, |t.log|, t.session, t.points, Relation(schema, table), Conditions(keys, 1), s.args, keys, values);
    hide Send;
  }

  lemma DeleteStatementRuns(db: Database, t: Tx, schema: string, table: string, keys: seq<string>, values: Row)
    requires SqlSafe.DeleteStatement(schema, table, keys, values).Ok?
    requires var s := SqlSafe.DeleteStatement(schema, table, keys, values).value;
      !LastReply(Send(db, t, s.sql, s.args)).Failed()
    ensures var s := SqlSafe.DeleteStatement(schema, table, keys, values).value;
      var next := Send(db, t, s.sql, s.args);
      && t.status.Active? && AllAccepted(t, next) && LastReply(next).Affected?
      && next == t.(log := next.log, session := next.session)
      && (LastReply(next).count > 0 <==> AnyReached(db, Delete, t.session, Relation(schema, table), keys, values))
      && (LastReply(next).count == 0 ==> Undisturbed(db, Relation(schema, table), t.session, next.session))
  {
    var s := SqlSafe.DeleteStatement(schema, table, keys, values).value;
    assert SqlSafe.SelectStatement(schema, table, keys, values).Ok?;
    assert SqlSafe.SelectStatement(schema, table, keys, values).value.args == s.args;
    KeyRead(schema, table, keys, values);
    SelectMeans(db, t.session, schema, table, keys, values);
    hide Parse, SqlSafe.SelectStatement, SqlSafe.DeleteStatement, RunActive, Means, DeleteReached, AnyReached;
    AcceptedOnActive(db, t, s.sql, s.args);
    DeleteCounts(db, |t.log|, t.session, t.points, Relation(schema, table), Conditions(keys, 1), s.args, keys, values);
    hide Send;
  }

  lemma UpdateStatementRuns(db: Database, t: Tx, schema: string, table: string, keys: seq<string>, values: Row,
          mutation: Row)
    requires SqlSafe.UpdateStatement(schema, table, keys, values, mutation).Ok?
    requires var s := SqlSafe.UpdateStatement(schema, table, keys, values, mutation).value;
      !LastReply(Send(db, t, s.sql, s.args)).Failed()
    ensures var s := SqlSafe.UpdateStatement(schema, table, keys, values, mutation).value;
      var next := Send(db, t, s.sql, s.args);
      && t.status.Active? && AllAccepted(t, next) && LastReply(next).Affected?
      && next == t.(log := next.log, session := next.session)
      && (LastReply(next).count > 0 <==> AnyReached(db, Update, t.session, Relation(schema, table), keys, values))
      && (LastReply(next).count == 0 ==> Undisturbed(db, Relation(schema, table), t.session, next.session))
  {
    var s := SqlSafe.UpdateStatement(schema, table, keys, values, mutation).value;
    var column := SqlSafe.MutatedColumn(mutation);
    SqlSafe.UpdateMeansKey(schema, table, keys, values, mutation, map[]);
    UpdateMeans(db, t.session, schema, table, keys, values, mutation);
    hide Parse, SqlSafe.UpdateStatement, SqlSafe.Holds, RunActive, Means, UpdateReached, AnyReached;
    AcceptedOnActive(db, t, s.sql, s.args);
    UpdateCounts(db, |t.log|, t.session, t.points, Relation(schema, table), column, Conditions(keys, 2), s.args,
      keys, values);
    hide Send;
  }

  /** An INSERT of a whole map is accepted only if the policy admits that very row. */
  lemma InsertStatementRuns(db: Database, t: Tx, schema: string, table: string, values: Row)
    requires SqlSafe.InsertStatement(schema, table, values, SortedElements(values.Keys)).Ok?
    ensures var s := SqlSafe.InsertStatement(schema, table, values, SortedElements(values.Keys)).value;
      var next := Send(db, t, s.sql, s.args);
      && (Parse(s.sql).Some? && Parse(s.sql).value.InsertRow?)
      && (!LastReply(next).Failed() ==>
            t.status.Active? && AllAccepted(t, next) && LastReply(next) == Affected(1)
            && db.insertCheck(t.session.Ctx(), Relation(schema, table), values))
  {
    var s := SqlSafe.InsertStatement(schema, table, values, SortedElements(values.Keys)).value;
    SqlSafe.InsertMeansRow(schema, table, values);
    var columns := SortedElements(values.Keys);
    hide Parse, SqlSafe.InsertStatement, SqlSafe.InsertedRow, RunActive, MarkNumbers;
    if !LastReply(Send(db, t, s.sql, s.args)).Failed() {
      AcceptedOnActive(db, t, s.sql, s.args);
      InsertCounts(db, |t.log|, t.session, t.points, Relation(schema, table), columns, MarkNumbers(1, |columns|),
        s.args);
    }
    hide Send;
  }

  lemma InsertCounts(db: Database, n: nat, s: Session, points: seq<Point>, rel: Relation, columns: seq<string>,
          marks: seq<nat>, args: seq<Value>)
    requires RunActive(db, n, s, points, InsertRow(rel.schema, rel.table, columns, marks), args).Accepted?
    ensures RunActive(db, n, s, points, InsertRow(rel.schema, rel.table, columns, marks), args).reply == Affected(1)
    ensures db.insertCheck(s.Ctx(), rel, SqlSafe.InsertedRow(columns, marks, args))
  {
    hide SqlSafe.InsertedRow;
  }

  /** A failed statement changes nothing but the log, and the status if the server refused it. */
  lemma FailureChangesNothing(db: Database, t: Tx, sql: string, args: seq<Value>)
    requires LastReply(Send(db, t, sql, args)).Failed()
    ensures var next := Send(db, t, sql, args);
      && |next.log| == |t.log| + 1 && t.log <= next.log && next.log[|t.log|].sql == sql
      && next == t.(log := next.log, status := if LastReply(next).ServerError? then Aborted else t.status)
      && (LastReply(next) == ServerError(DENIED) ==> t.status.Active?)
  {
    hide Parse, RunActive, RunAborted;
  }

  /** Whatever comes of a row statement, role, settings and search path stay. */
  lemma RowStatementKeepsContext(db: Database, t: Tx, sql: string, args: seq<Value>)
    requires Parse(sql).Some? && RelationOf(Parse(sql).value).Some?
    ensures var next := Send(db, t, sql, args);
      next.session == t.session.(tables := next.session.tables) && next.session.Ctx() == t.session.Ctx()
  {
    hide Parse, RunActive;
    if LastReply(Send(db, t, sql, args)).Failed() {
      FailureChangesNothing(db, t, sql, args);
    } else {
      AcceptedOnActive(db, t, sql, args);
      DataChangesTables(db, |t.log|, t.session, t.points, Parse(sql).value, args);
    }
  }

  datatype Ending = RolledBack | WasClosed | RollbackFailed

  function EndingOf(db: Database, t: Tx): Ending {
    if t.status.Closed? then WasClosed else if db.lost(|t.log|) then RollbackFailed else RolledBack
  }

  /** ROLLBACK of the whole transaction. */
  function End(db: Database, t: Tx): Tx {
    if EndingOf(db, t).RolledBack? then t.(session := t.outer, status := Closed, points := []) else t
  }

  /** The transaction as the program holds it. */
  class Transaction {
    const db: Database
    const outer: Session
    var session: Session
    var status: Status
    var points: seq<Point>
    var log: seq<Entry>

    ghost function State(): Tx
      reads this
    {
      Tx(outer, session, status, points, log)
    }

    constructor (db: Database, s: Session)
      ensures this.db == db && State() == Begin(s)
    {
      this.db := db;
      outer := s;
      session, status, points, log := s, Active, [], [];
    }

    method Exec(sql: string, args: seq<Value>) returns (reply: Reply)
      modifies this
      ensures State() == Send(db, old(State()), sql, args)
      ensures log != [] && reply == LastReply(State())
    {
      var reached := !db.lost(|log|) && !status.Closed?;
      if !reached {
        reply := ClientError;
        log := log + [Entry(sql, args, session, reply)];
        return;
      }
      var before := session;
      var effect := if status.Active? then RunActive(db, |log|, session, points, Understood(sql),
        args) else RunAborted(points, Parse(sql));
      match effect {
        case Accepted(session', points', answer) =>
          session, points, status, reply := session', points', Active, answer;
        case Rejected(code) =>
          status, reply := Aborted, ServerError(code);
      }
      log := log + [Entry(sql, args, before, reply)];
    }

    method Rollback() returns (e: Ending)
      modifies this
      ensures State() == End(db, old(State())) && e == EndingOf(db, old(State()))
    {
      if status.Closed? {
        return WasClosed;
      }
      if db.lost(|log|) {
        return RollbackFailed;
      }
      session, status, points := outer, Closed, [];
      return RolledBack;
    }
  }
}
