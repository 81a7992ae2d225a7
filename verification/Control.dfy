/** The negative control (internal/control/control.go): the owner must observe its own fixture. */
module Control {
  import opened Domain
  import opened Postgres
  import SqlSafe

  /** The transaction afterwards, and whether the control succeeded. */
  function Verified(db: Database, schema: string, attack: Attack, row: Row, t: Tx): (Tx, bool) {
    match SqlSafe.SelectStatement(schema, attack.table, attack.primaryKey, row)
    case Err(_) => (t, false)
    case Ok(s) =>
      var next := Send(db, t, s.sql, s.args);
      (next, LastReply(next).Rows? && LastReply(next).count > 0)
  }

  method Verify(tx: Transaction, schema: string, attack: Attack, row: Row) returns (ok: bool)
    modifies tx
    ensures (tx.State(), ok) == Verified(tx.db, schema, attack, row, old(tx.State()))
  {
    var s := SqlSafe.Select(schema, attack.table, attack.primaryKey, row);
    if s.Err? {
      return false;
    }
    var reply := tx.Exec(s.value.sql, s.value.args);
    return reply.Rows? && reply.count > 0;
  }

  /** A successful control: the transaction is active and unchanged, and a stored row with the configured key is
      visible to the role and settings in force. */
  lemma VerifiedObserves(db: Database, schema: string, attack: Attack, row: Row, t: Tx)
    requires Verified(db, schema, attack, row, t).1
    ensures var t' := Verified(db, schema, attack, row, t).0;
      t.status.Active? && AllAccepted(t, t') && t' == t.(log := t'.log)
    ensures exists r :: Reached(db, Select, t.session, Relation(schema, attack.table), attack.primaryKey, row, r)
  {
    var s := SqlSafe.SelectStatement(schema, attack.table, attack.primaryKey, row).value;
    var rel := Relation(schema, attack.table);
    SelectStatementRuns(db, t, schema, attack.table, attack.primaryKey, row);
    hide SqlSafe.SelectStatement, Send, Reached;
  }
}
