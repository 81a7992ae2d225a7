/** The adversary's operations (internal/attacks/run.go). */
module Attacks {
  import opened Wrappers
  import opened Ordering
  import opened Domain
  import opened SqlSyntax
  import opened Postgres
  import SqlSafe

  function Blank(table: string, op: Operation): Evidence {
    Evidence(table, op, false, 0, 0, "", "", "")
  }

  /** A built statement is sent and read off as rows returned or affected; none of either is a denial. */
  function Sent(db: Database, statement: SqlSafe.Statement, e: Evidence, t: Tx): (Tx, Evidence) {
    var next := Send(db, t, statement.sql, statement.args);
    var shown := e.(template := statement.template);
    (next, match LastReply(next)
           case Rows(n) => shown.(rowsReturned := n, denied := n == 0)
           case Affected(n) => shown.(rowsAffected := n, denied := n == 0)
           case Done => shown.(denied := true)
           case _ => shown.(error := ErrorText(LastReply(next))))
  }

  function StatementFor(schema: string, attack: Attack, row: Row, op: Operation): Result<SqlSafe.Statement,
          SqlSafe.BuildError>
    requires op.Select? || op.Update? || op.Delete?
  {
    match op
    case Select => SqlSafe.SelectStatement(schema, attack.table, attack.primaryKey, row)
    case Delete => SqlSafe.DeleteStatement(schema, attack.table, attack.primaryKey, row)
    case Update => SqlSafe.UpdateStatement(schema, attack.table, attack.primaryKey, row, attack.mutation)
  }

  /** One pass of the switch: unsupported operations fall through it and leave blank evidence. */
  function Attempt(db: Database, schema: string, attack: Attack, row: Row, op: Operation, t: Tx): (Tx, Evidence) {
    var e := Blank(attack.table, op);
    if op.Select? || op.Update? || op.Delete? then
      match StatementFor(schema, attack, row, op)
      case Err(b) => (t, e.(error := SqlSafe.Message(b)))
      case Ok(s) => Sent(db, s, e, t)
    else (t, e)
  }

  function RunFrom(db: Database, schema: string, attack: Attack, row: Row, ops: seq<Operation>, t: Tx): (Tx,
          seq<Evidence>)
    decreases ops
  {
    if ops == [] then (t, [])
    else if ops[0] == Insert then RunFrom(db, schema, attack, row, ops[1..], t)
    else
      var (t', e) := Attempt(db, schema, attack, row, ops[0], t);
      var (t'', rest) := RunFrom(db, schema, attack, row, ops[1..], t');
      (t'', [e] + rest)
  }

  ghost function InsertAttempt(db: Database, schema: string, attack: Attack, t: Tx): (Tx, Evidence) {
    var e := Blank(attack.table, Insert);
    match SqlSafe.InsertStatement(schema, attack.table, attack.insert, SortedElements(attack.insert.Keys))
    case Err(b) => (t, e.(error := SqlSafe.Message(b)))
    case Ok(s) =>
      var next := Send(db, t, s.sql, s.args);
      (next, InsertEvidence(e.(template := s.template), LastReply(next)))
  }

  /** An error that is not the server's leaves the evidence denied; a server error does so only for SQLSTATE 42501. */
  function InsertEvidence(e: Evidence, reply: Reply): Evidence {
    match reply
    case Affected(n) => e.(rowsAffected := n)
    case ServerError(code) => e.(error := ErrorText(ServerError(code)), sqlState := code, denied := code == DENIED)
    case ClientError => e.(error := ErrorText(ClientError), denied := true)
    case _ => e
  }

  // ---------- the code ----------

  method Run(tx: Transaction, schema: string, attack: Attack, row: Row) returns (out: seq<Evidence>)
    modifies tx
    ensures (tx.State(), out) == RunFrom(tx.db, schema, attack, row, attack.operations, old(tx.State()))
  {
    hide Attempt;
    var ops := attack.operations;
    out := [];
    assert ops[0..] == ops;
    assert out + RunFrom(tx.db, schema, attack, row, ops, tx.State()).1
      == RunFrom(tx.db, schema, attack, row, ops, tx.State()).1;
    for i := 0 to |ops|
      invariant (var (t, rest) := RunFrom(tx.db, schema, attack, row, ops[i..], tx.State()); (t, out + rest))
        == RunFrom(tx.db, schema, attack, row, ops, old(tx.State()))
    {
      assert ops[i..][1..] == ops[i + 1..];
      if ops[i] != Insert {
        ghost var rest := RunFrom(tx.db, schema, attack, row, ops[i..], tx.State()).1;
        var e := RunOne(tx, schema, attack, row, ops[i]);
        assert out + rest == (out + [e]) + rest[1..];
        out := out + [e];
      }
    }
    assert out + [] == out;
  }

  /** The body of the loop for one operation, filling the evidence in place. */
  method RunOne(tx: Transaction, schema: string, attack: Attack, row: Row, op: Operation) returns (e: Evidence)
    modifies tx
    ensures (tx.State(), e) == Attempt(tx.db, schema, attack, row, op, old(tx.State()))
  {
    hide Send, SqlSafe.SelectStatement, SqlSafe.UpdateStatement, SqlSafe.DeleteStatement;
    e := Evidence(attack.table, op, false, 0, 0, "", "", "");
    var s: Result<SqlSafe.Statement, SqlSafe.BuildError>;
    match op {
      case Select => s := SqlSafe.Select(schema, attack.table, attack.primaryKey, row);
      case Delete => s := SqlSafe.Delete(schema, attack.table, attack.primaryKey, row);
      case Update => s := SqlSafe.Update(schema, attack.table, attack.primaryKey, row, attack.mutation);
      case _ => return;
    }
    if s.Err? {
      e := e.(error := SqlSafe.Message(s.error));
      return;
    }
    e := e.(template := s.value.template);
    var reply := tx.Exec(s.value.sql, s.value.args);
    match reply {
      case Rows(n) => e := e.(rowsReturned := n, denied := n == 0);
      case Affected(n) => e := e.(rowsAffected := n, denied := n == 0);
      case Done => e := e.(denied := true);
      case _ => e := e.(error := ErrorText(reply));
    }
  }

  method InsertOne(tx: Transaction, schema: string, attack: Attack) returns (e: Evidence)
    modifies tx
    ensures (tx.State(), e) == InsertAttempt(tx.db, schema, attack, old(tx.State()))
  {
    hide Send, SqlSafe.InsertStatement;
    e := Evidence(attack.table, Insert, false, 0, 0, "", "", "");
    var columns := SortKeys(attack.insert.Keys);
    var s := SqlSafe.Insert(schema, attack.table, attack.insert, columns);
    if s.Err? {
      e := e.(error := SqlSafe.Message(s.error));
      return;
    }
    e := e.(template := s.value.template);
    var reply := tx.Exec(s.value.sql, s.value.args);
    if !reply.Failed() {
      e := if reply.Affected? then e.(rowsAffected := reply.count) else e;
      return;
    }
    e := e.(error := ErrorText(reply), denied := true);
    if reply.ServerError? {
      e := e.(sqlState := reply.code, denied := reply.code == DENIED);
    }
  }

  // ---------- what the evidence means ----------

  /** Log growth without a server rejection. */
  ghost predicate NoRejection(t: Tx, t': Tx) {
    t.log <= t'.log && forall k :: |t.log| <= k < |t'.log| ==> !t'.log[k].reply.ServerError?
  }

  /** Denied evidence of a read, update or delete: the statement was accepted, and reached no row with the key. */
  ghost predicate KeyDenied(db: Database, schema: string, attack: Attack, row: Row, op: Operation, t: Tx, t': Tx) {
    && (op.Select? || op.Update? || op.Delete?)
    && t.status.Active? && AllAccepted(t, t') && t' == t.(log := t'.log, session := t'.session)
    && !AnyReached(db, op, t.session, Relation(schema, attack.table), attack.primaryKey, row)
    && Undisturbed(db, Relation(schema, attack.table), t.session, t'.session)
  }

  /** The evidence of a statement that was sent, in terms of the reply. */
  lemma SentShows(db: Database, statement: SqlSafe.Statement, e: Evidence, t: Tx)
    requires e.error == "" && !e.denied
    ensures var next := Send(db, t, statement.sql, statement.args);
      var (t', e') := Sent(db, statement, e, t);
      && t' == next && e'.table == e.table && e'.operation == e.operation
      && (e'.error != "" <==> LastReply(next).Failed())
      && (LastReply(next).Failed() ==> !e'.denied)
      && (LastReply(next).Rows? || LastReply(next).Affected? ==> (e'.denied <==> LastReply(next).count == 0))
  {
    hide Send;
  }

  lemma AttemptMeans(db: Database, schema: string, attack: Attack, row: Row, op: Operation, t: Tx)
    requires !op.Insert?
    ensures var (t', e) := Attempt(db, schema, attack, row, op, t);
      && e.table == attack.table && e.operation == op
      && (e.error != "" ==> !e.denied)
      && (e.denied ==> KeyDenied(db, schema, attack, row, op, t, t'))
      && (!e.denied && e.error == "" && op.Valid() ==>
            t.status.Active? && AnyReached(db, op, t.session, Relation(schema, attack.table), attack.primaryKey, row))
  {
    hide Send, Sent, AnyReached, AllAccepted, Undisturbed, SqlSafe.SelectStatement, SqlSafe.UpdateStatement;
    hide SqlSafe.DeleteStatement;
    if op.Valid() && StatementFor(schema, attack, row, op).Ok? {
      var s := StatementFor(schema, attack, row, op).value;
      var next := Send(db, t, s.sql, s.args);
      SentShows(db, s, Blank(attack.table, op), t);
      if !LastReply(next).Failed() {
        match op {
          case Select => SelectStatementRuns(db, t, schema, attack.table, attack.primaryKey, row);
            SameIsUndisturbed(db, Relation(schema, attack.table), t.session);
          case Delete => DeleteStatementRuns(db, t, schema, attack.table, attack.primaryKey, row);
          case Update => UpdateStatementRuns(db, t, schema, attack.table, attack.primaryKey, row, attack.mutation);
        }
      }
    }
  }

  lemma SameIsUndisturbed(db: Database, rel: Relation, s: Session)
    ensures Undisturbed(db, rel, s, s)
  {
  }

  /** Denied evidence of an insert: never sent, or refused by the server with 42501, which aborts the transaction. */
  ghost predicate InsertDenied(t: Tx, t': Tx, sql: string) {
    && |t'.log| == |t.log| + 1 && t.log <= t'.log && t'.log[|t.log|].sql == sql
    && (if t'.log[|t.log|].reply.ClientError? then t' == t.(log := t'.log)
        else (t.status.Active? && t'.log[|t.log|].reply == ServerError(DENIED)
              && t' == t.(log := t'.log, status := Aborted)))
    && Parse(sql).Some? && Parse(sql).value.InsertRow?
  }

  lemma InsertMeans(db: Database, schema: string, attack: Attack, t: Tx)
    ensures var (t', e) := InsertAttempt(db, schema, attack, t);
      && e.table == attack.table && e.operation == Insert
      && (e.denied ==> InsertDenied(t, t', t'.log[|t.log|].sql))
      && (!e.denied && e.error == "" ==>
            t.status.Active? && db.insertCheck(t.session.Ctx(), Relation(schema, attack.table), attack.insert))
  {
    hide SqlSafe.InsertStatement, Parse, Send, SortedElements;
    var built := SqlSafe.InsertStatement(schema, attack.table, attack.insert, SortedElements(attack.insert.Keys));
    if built.Ok? {
      var s := built.value;
      InsertStatementRuns(db, t, schema, attack.table, attack.insert);
      if LastReply(Send(db, t, s.sql, s.args)).Failed() {
        FailureChangesNothing(db, t, s.sql, s.args);
      }
    }
  }

  /** What the server reads of a built key statement is a row statement. */
  lemma StatementIsData(schema: string, a: Attack, row: Row, op: Operation)
    requires (op.Select? || op.Update? || op.Delete?) && StatementFor(schema, a, row, op).Ok?
    ensures var q := Parse(StatementFor(schema, a, row, op).value.sql);
      q.Some? && RelationOf(q.value) == Some(Relation(schema, a.table))
  {
    match op {
      case Select =>
        hide Parse, SqlSafe.SelectStatement;
        KeyRead(schema, a.table, a.primaryKey, row);
      case Delete =>
        assert SqlSafe.SelectStatement(schema, a.table, a.primaryKey, row).Ok?;
        hide Parse, SqlSafe.SelectStatement, SqlSafe.DeleteStatement;
        KeyRead(schema, a.table, a.primaryKey, row);
      case Update =>
        hide Parse, SqlSafe.UpdateStatement, SqlSafe.Holds;
        SqlSafe.UpdateMeansKey(schema, a.table, a.primaryKey, row, a.mutation, map[]);
    }
  }

  // ---------- the evidence in full ----------

  /** Evidence of a statement that was sent and got the reply: its counts are the reply's, its error is there exactly
      if the reply is one, with the server's own code if it is to be kept. */
  predicate Records(e: Evidence, a: Attack, op: Operation, sql: string, reply: Reply, code: string) {
    && e.table == a.table && e.operation == op && e.template == sql && e.sqlState == code
    && e.rowsReturned == (if reply.Rows? then reply.count else 0)
    && e.rowsAffected == (if reply.Affected? then reply.count else 0)
    && (e.error != "" <==> reply.Failed())
  }

  /** Evidence of nothing sent. */
  predicate RecordsNothing(e: Evidence, a: Attack, op: Operation) {
    && e.table == a.table && e.operation == op && e.template == "" && e.sqlState == ""
    && e.rowsReturned == 0 && e.rowsAffected == 0 && !e.denied
  }

  /** What a read, update or delete leaves as evidence, field by field. */
  lemma EvidenceIsExact(db: Database, schema: string, a: Attack, row: Row, op: Operation, t: Tx)
    requires op.Select? || op.Update? || op.Delete?
    ensures var (t', e) := Attempt(db, schema, a, row, op, t);
      match StatementFor(schema, a, row, op)
      case Err(_) => RecordsNothing(e, a, op) && e.error != "" && t' == t
      case Ok(s) =>
        && |t'.log| == |t.log| + 1 && (t'.log[|t.log|].sql, t'.log[|t.log|].args) == (s.sql, s.args)
        && var reply := t'.log[|t.log|].reply;
           && Records(e, a, op, s.sql, reply, "")
           && (e.denied <==> !reply.Failed() && e.rowsReturned == 0 && e.rowsAffected == 0)
  {
    hide Send, SqlSafe.SelectStatement, SqlSafe.UpdateStatement, SqlSafe.DeleteStatement;
    if StatementFor(schema, a, row, op).Ok? {
      var s := StatementFor(schema, a, row, op).value;
      SendLogs(db, t, s.sql, s.args);
      KeyTemplate(schema, a, row, op);
      hide StatementFor;
    }
  }

  /** What an insert leaves as evidence: a server's refusal with its own code, denied for 42501 only; an insert that
      never arrived denied without one. */
  lemma InsertEvidenceIsExact(db: Database, schema: string, a: Attack, t: Tx)
    ensures var (t', e) := InsertAttempt(db, schema, a, t);
      match SqlSafe.InsertStatement(schema, a.table, a.insert, SortedElements(a.insert.Keys))
      case Err(_) => RecordsNothing(e, a, Insert) && e.error != "" && t' == t
      case Ok(s) =>
        && |t'.log| == |t.log| + 1 && (t'.log[|t.log|].sql, t'.log[|t.log|].args) == (s.sql, s.args)
        && var reply := t'.log[|t.log|].reply;
           && Records(e, a, Insert, s.sql, reply, if reply.ServerError? then reply.code else "")
           && (e.denied <==> reply == ServerError("42501") || reply == ClientError)
  {
    hide Send, SqlSafe.InsertStatement, SortedElements;
    var built := SqlSafe.InsertStatement(schema, a.table, a.insert, SortedElements(a.insert.Keys));
    if built.Ok? {
      SendLogs(db, t, built.value.sql, built.value.args);
      InsertStatementRuns(db, t, schema, a.table, a.insert);
      InsertTemplate(schema, a.table, a.insert, SortedElements(a.insert.Keys));
    }
  }

  // ---------- accesses ----------

  /** Neither denied nor failed: what makes a conclusive run a `fail`. */
  predicate Leak(e: Evidence) {
    !e.denied && e.error == ""
  }

  /** The entry is the evidence's own statement, accepted by the server, and it got through: it returned or affected
      as many rows as the evidence reports, reaching a stored row with the key; or the policy admitted the inserted
      row. */
  ghost predicate Access(db: Database, schema: string, a: Attack, row: Row, e: Evidence, entry: Entry) {
    && e.table == a.table && e.template == entry.sql && entry.sql != ""
    && match e.operation
       case Other(_) => false
       case Insert =>
         var s := SqlSafe.InsertStatement(schema, a.table, a.insert, SortedElements(a.insert.Keys));
         && s.Ok? && entry.sql == s.value.sql && entry.args == s.value.args
         && entry.reply == Affected(1) && e.rowsAffected == 1
         && db.insertCheck(entry.before.Ctx(), Relation(schema, a.table), a.insert)
       case op =>
         var s := StatementFor(schema, a, row, op);
         && s.Ok? && entry.sql == s.value.sql && entry.args == s.value.args
         && entry.reply == (if op.Select? then Rows(e.rowsReturned) else Affected(e.rowsAffected))
         && e.rowsReturned + e.rowsAffected > 0
         && AnyReached(db, op, entry.before, Relation(schema, a.table), a.primaryKey, row)
  }

  /** The reply to a key statement that was accepted. */
  lemma KeyReply(db: Database, schema: string, a: Attack, row: Row, op: Operation, t: Tx)
    requires (op.Select? || op.Update? || op.Delete?) && StatementFor(schema, a, row, op).Ok?
    requires var s := StatementFor(schema, a, row, op).value; !LastReply(Send(db, t, s.sql, s.args)).Failed()
    ensures var s := StatementFor(schema, a, row, op).value;
      var reply := LastReply(Send(db, t, s.sql, s.args));
      && (if op.Select? then reply.Rows? else reply.Affected?)
      && (reply.count > 0 <==> AnyReached(db, op, t.session, Relation(schema, a.table), a.primaryKey, row))
  {
    hide Send, AnyReached, AllAccepted, Undisturbed, SqlSafe.SelectStatement, SqlSafe.UpdateStatement;
    hide SqlSafe.DeleteStatement;
    match op {
      case Select => SelectStatementRuns(db, t, schema, a.table, a.primaryKey, row);
      case Delete => DeleteStatementRuns(db, t, schema, a.table, a.primaryKey, row);
      case Update => UpdateStatementRuns(db, t, schema, a.table, a.primaryKey, row, a.mutation);
    }
  }

  /** A leak of a supported operation is an access by the statement just sent; an unsupported operation always leaves a
      leak, with nothing sent. */
  lemma AttemptIsAccess(db: Database, schema: string, a: Attack, row: Row, op: Operation, t: Tx)
    requires !op.Insert?
    ensures var (t', e) := Attempt(db, schema, a, row, op, t);
      if op.Valid() then
        Leak(e) ==>
          && |t'.log| == |t.log| + 1 && t.log <= t'.log
          && t'.log[|t.log|].before == t.session && Access(db, schema, a, row, e, t'.log[|t.log|])
      else Leak(e) && t' == t
  {
    hide Send, AnyReached, StatementFor, Parse, RelationOf;
    if op.Valid() && StatementFor(schema, a, row, op).Ok? {
      var s := StatementFor(schema, a, row, op).value;
      SendLogs(db, t, s.sql, s.args);
      KeyTemplate(schema, a, row, op);
      StatementIsData(schema, a, row, op);
      TextIsNotEmpty(s.sql);
      if !LastReply(Send(db, t, s.sql, s.args)).Failed() {
        KeyReply(db, schema, a, row, op, t);
      }
    }
  }

  lemma KeyTemplate(schema: string, a: Attack, row: Row, op: Operation)
    requires (op.Select? || op.Update? || op.Delete?) && StatementFor(schema, a, row, op).Ok?
    ensures StatementFor(schema, a, row, op).value.template == StatementFor(schema, a, row, op).value.sql
  {
  }

  lemma InsertTemplate(schema: string, table: string, values: Row, columns: seq<string>)
    requires SqlSafe.InsertStatement(schema, table, values, columns).Ok?
    ensures var s := SqlSafe.InsertStatement(schema, table, values, columns).value; s.template == s.sql
  {
  }

  lemma TextIsNotEmpty(sql: string)
    requires Parse(sql).Some?
    ensures sql != ""
  {
    hide After;
  }

  lemma InsertIsAccess(db: Database, schema: string, a: Attack, row: Row, t: Tx)
    requires Leak(InsertAttempt(db, schema, a, t).1)
    ensures var (t', e) := InsertAttempt(db, schema, a, t);
      && |t'.log| == |t.log| + 1 && t.log <= t'.log
      && t'.log[|t.log|].before == t.session && Access(db, schema, a, row, e, t'.log[|t.log|])
  {
    hide Send, SqlSafe.InsertStatement, SortedElements, Parse;
    var built := SqlSafe.InsertStatement(schema, a.table, a.insert, SortedElements(a.insert.Keys));
    if built.Ok? {
      var s := built.value;
      SendLogs(db, t, s.sql, s.args);
      InsertStatementRuns(db, t, schema, a.table, a.insert);
      InsertTemplate(schema, a.table, a.insert, SortedElements(a.insert.Keys));
      TextIsNotEmpty(s.sql);
    }
  }

  /** Did the attempt's statement reach the server? */
  predicate Delivered(db: Database, t: Tx) {
    !db.lost(|t.log|) && !t.status.Closed?
  }

  /** An insert is denied exactly when its statement could be built and was lost, whatever the policy says, or refused
      with 42501; so its denial is the server's exactly when it was delivered. */
  lemma InsertDenialIsExact(db: Database, schema: string, a: Attack, t: Tx)
    ensures var s := SqlSafe.InsertStatement(schema, a.table, a.insert, SortedElements(a.insert.Keys));
      var (t', e) := InsertAttempt(db, schema, a, t);
      && (e.denied <==>
            s.Ok? && (Delivered(db, t) ==> Answer(db, t, s.value.sql, s.value.args) == Rejected(DENIED)))
      && (e.denied ==> |t'.log| > 0 && (LastReply(t') == ServerError(DENIED) <==> Delivered(db, t)))
  {
    hide SqlSafe.InsertStatement, SortedElements, Parse, RunActive, RunAborted;
  }

  /** The entry is the attack's own insert, and it was refused with 42501 or never delivered. */
  ghost predicate RefusedInsert(schema: string, a: Attack, entry: Entry) {
    var s := SqlSafe.InsertStatement(schema, a.table, a.insert, SortedElements(a.insert.Keys));
    && s.Ok? && entry.sql == s.value.sql && entry.args == s.value.args
    && (entry.reply == ServerError(DENIED) || entry.reply == ClientError)
  }

  lemma DeniedIsRefused(db: Database, schema: string, a: Attack, t: Tx)
    requires InsertAttempt(db, schema, a, t).1.denied
    ensures var t' := InsertAttempt(db, schema, a, t).0;
      && |t'.log| == |t.log| + 1 && t.log <= t'.log
      && t'.log[|t.log|].before == t.session && RefusedInsert(schema, a, t'.log[|t.log|])
  {
    hide Send, SqlSafe.InsertStatement, SortedElements;
    var built := SqlSafe.InsertStatement(schema, a.table, a.insert, SortedElements(a.insert.Keys));
    SendLogs(db, t, built.value.sql, built.value.args);
  }
}
