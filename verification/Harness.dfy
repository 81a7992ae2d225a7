/** The savepoint harness (internal/harness/harness.go): one transaction, one savepoint per operation. */
module Harness {
  import opened Wrappers
  import opened Text
  import opened Domain
  import opened SqlSyntax
  import opened Postgres

  datatype OpError = OpError(text: string)

  /** An operation is a program over the transaction: from the replies so far it decides the next statement, or to
      stop; it stops after at most `limit` statements, and then returns its error or nil. */
  datatype Operation = Operation(
    limit: nat, decide: seq<Reply> -> Option<(string, seq<Value>)>, finish: seq<Reply> -> Option<OpError>)

  datatype Fatal =
    | BeginFailed
    | CreateFailed
    | RollbackToFailed
    | ReleaseFailed
    | OuterRollbackFailed(during: Option<Fatal>)

  function PointName(n: nat): string {
    "pg_canary_" + Decimal(n)
  }

  function RunOperation(db: Database, op: Operation, t: Tx, replies: seq<Reply>): (r: (Tx, Option<OpError>))
    ensures |t.log| <= |r.0.log| && r.0.outer == t.outer
    ensures r.0.status.Closed? ==> t.status.Closed?
    decreases op.limit - |replies|
  {
    if |replies| < op.limit && op.decide(replies).Some? then
      var (sql, args) := op.decide(replies).value;
      var t' := Send(db, t, sql, args);
      RunOperation(db, op, t', replies + [LastReply(t')])
    else (t, op.finish(replies))
  }

  /** The operation never names the harness's own current savepoint. */
  ghost predicate Differs(op: Operation, name: string) {
    forall replies :: op.decide(replies).Some? ==> !NamesPoint(Parse(op.decide(replies).value.0), name)
  }

  predicate NamesPoint(q: Option<Sql>, name: string) {
    match q
    case Some(Savepoint(m)) => m == name
    case Some(RollbackTo(m)) => m == name
    case Some(Release(m)) => m == name
    case _ => false
  }

  // ---------- the loop ----------

  datatype Progress = Progress(tx: Tx, errors: seq<OpError>, fatal: Option<Fatal>)

  function CreatePoint(db: Database, t: Tx, n: nat): Tx {
    Send(db, t, "SAVEPOINT " + PointName(n), [])
  }

  function ToPoint(db: Database, t: Tx, n: nat): Tx {
    Send(db, t, "ROLLBACK TO SAVEPOINT " + PointName(n), [])
  }

  function ReleasePoint(db: Database, t: Tx, n: nat): Tx {
    Send(db, t, "RELEASE SAVEPOINT " + PointName(n), [])
  }

  function AfterRelease(t: Tx, errors: seq<OpError>): Progress
    requires t.log != []
  {
    Progress(t, errors, if LastReply(t).Failed() then Some(ReleaseFailed) else None)
  }

  /** One iteration: savepoint, operation, rollback on its error, release. */
  function Step(db: Database, op: Operation, n: nat, t: Tx, errors: seq<OpError>): Progress {
    var created := CreatePoint(db, t, n);
    if LastReply(created).Failed() then Progress(created, errors, Some(CreateFailed))
    else
      var (ran, error) := RunOperation(db, op, created, []);
      match error
      case None => AfterRelease(ReleasePoint(db, ran, n), errors)
      case Some(e) =>
        var back := ToPoint(db, ran, n);
        if LastReply(back).Failed() then Progress(back, errors + [e], Some(RollbackToFailed))
        else AfterRelease(ReleasePoint(db, back, n), errors + [e])
  }

  function RunFrom(db: Database, ops: seq<Operation>, n: nat, p: Progress): Progress
    requires n <= |ops|
    decreases |ops| - n
  {
    if n == |ops| || p.fatal.Some? then p else RunFrom(db, ops, n + 1, Step(db, ops[n], n, p.tx, p.errors))
  }

  // ---------- the simple form: no savepoints, failing operations skipped ----------

  function Note(t: Tx, sql: string): Tx {
    Logged(t, sql, [], Done)
  }

  /** Runs the operation on the bare transaction; keeps its effect, or on its error the state before it. */
  function PlainStep(db: Database, op: Operation, n: nat, t: Tx, errors: seq<OpError>): Progress {
    var (ran, error) := RunOperation(db, op, Note(t, "SAVEPOINT " + PointName(n)), []);
    match error
    case None => Progress(Note(ran, "RELEASE SAVEPOINT " + PointName(n)).(points := []), errors, None)
    case Some(e) =>
      var back := Note(ran, "ROLLBACK TO SAVEPOINT " + PointName(n)).(session := t.session, status := Active,
        points := []);
      Progress(Note(back, "RELEASE SAVEPOINT " + PointName(n)), errors + [e], None)
  }

  function PlainFrom(db: Database, ops: seq<Operation>, n: nat, p: Progress): Progress
    requires n <= |ops|
    decreases |ops| - n
  {
    if n == |ops| then p else PlainFrom(db, ops, n + 1, PlainStep(db, ops[n], n, p.tx, p.errors))
  }

  // ---------- operations do not see the savepoint below them ----------

  function WithBase(b: Point, t: Tx): Tx {
    t.(points := [b] + t.points)
  }

  lemma {:induction false} FindAbove(b: Point, own: seq<Point>, name: string)
    requires name != b.name
    ensures FindPoint([b] + own, name) ==
      match FindPoint(own, name) case None => None case Some(i) => Some(i + 1)
  {
    var all := [b] + own;
    if own != [] {
      var last := |own| - 1;
      assert all[..|all| - 1] == [b] + own[..last];
      FindAbove(b, own[..last], name);
    } else {
      assert all[..0] == [];
    }
  }

  lemma SliceAbove(b: Point, own: seq<Point>, i: nat)
    requires i <= |own|
    ensures ([b] + own)[..i + 1] == [b] + own[..i]
    ensures i < |own| ==> ([b] + own)[i + 1] == own[i]
  {
  }

  function Lift(b: Point, e: Effect): Effect {
    match e
    case Accepted(s, points, reply) => Accepted(s, [b] + points, reply)
    case Rejected(code) => Rejected(code)
  }

  lemma RollbackToAbove(b: Point, own: seq<Point>, name: string, otherwise: SqlState)
    requires name != b.name
    ensures RunRollbackTo([b] + own, name, otherwise) == Lift(b, RunRollbackTo(own, name, otherwise))
  {
    FindAbove(b, own, name);
    match FindPoint(own, name)
    case None =>
    case Some(i) =>
      SliceAbove(b, own, i);
      SliceAbove(b, own, i + 1);
  }

  lemma ReleaseAbove(db: Database, n: nat, s: Session, b: Point, own: seq<Point>, name: string, args: seq<Value>)
    requires name != b.name
    ensures RunActive(db, n, s, [b] + own, Release(name), args)
      == Lift(b, RunActive(db, n, s, own, Release(name), args))
  {
    FindAbove(b, own, name);
    match FindPoint(own, name)
    case None =>
    case Some(i) => SliceAbove(b, own, i);
  }

  lemma DataAbove(db: Database, n: nat, s: Session, b: Point, own: seq<Point>, q: Sql, args: seq<Value>)
    ensures RunData(db, n, s, [b] + own, q, args) == Lift(b, RunData(db, n, s, own, q, args))
  {
    hide Filter, MapRows, SelectReached, UpdateReached, DeleteReached, SqlSafe.InsertedRow, SqlSafe.Bound;
  }

  lemma AnswerAbove(db: Database, b: Point, t: Tx, sql: string, args: seq<Value>)
    requires !t.status.Closed? && !NamesPoint(Parse(sql), b.name)
    ensures Answer(db, WithBase(b, t), sql, args) == Lift(b, Answer(db, t, sql, args))
  {
    hide RunData, RunRollbackTo, FindPoint, Parse;
    match Parse(sql) {
      case None =>
        DataAbove(db, |t.log|, t.session, b, t.points, Foreign(sql), args);
      case Some(Savepoint(m)) =>
        assert [b] + t.points + [Point(m, t.session)] == [b] + (t.points + [Point(m, t.session)]);
      case Some(RollbackTo(m)) =>
        RollbackToAbove(b, t.points, m, NO_SUCH_SAVEPOINT);
      case Some(Release(m)) =>
        ReleaseAbove(db, |t.log|, t.session, b, t.points, m, args);
      case Some(data) =>
        DataAbove(db, |t.log|, t.session, b, t.points, data, args);
    }
  }

  lemma ExecuteAbove(db: Database, b: Point, t: Tx, sql: string, args: seq<Value>)
    requires !NamesPoint(Parse(sql), b.name)
    ensures Send(db, WithBase(b, t), sql, args) == WithBase(b, Send(db, t, sql, args))
  {
    if !t.status.Closed? {
      AnswerAbove(db, b, t, sql, args);
    }
    hide Answer, Parse;
  }

  lemma {:induction false} OperationAbove(db: Database, b: Point, op: Operation, t: Tx, replies: seq<Reply>)
    requires Differs(op, b.name)
    ensures RunOperation(db, op, WithBase(b, t), replies)
      == (WithBase(b, RunOperation(db, op, t, replies).0), RunOperation(db, op, t, replies).1)
    decreases op.limit - |replies|
  {
    hide Send;
    if |replies| < op.limit && op.decide(replies).Some? {
      var (sql, args) := op.decide(replies).value;
      ExecuteAbove(db, b, t, sql, args);
      var t' := Send(db, t, sql, args);
      OperationAbove(db, b, op, t', replies + [LastReply(t')]);
    }
  }

  ghost predicate Unnamed(points: seq<Point>, name: string) {
    forall i :: 0 <= i < |points| ==> points[i].name != name
  }

  lemma {:induction false} OperationLeavesNoSuchPoint(db: Database, op: Operation, t: Tx, replies: seq<Reply>,
          name: string)
    requires Differs(op, name) && Unnamed(t.points, name)
    ensures Unnamed(RunOperation(db, op, t, replies).0.points, name)
    decreases op.limit - |replies|
  {
    if |replies| < op.limit && op.decide(replies).Some? {
      var (sql, args) := op.decide(replies).value;
      var t' := Send(db, t, sql, args);
      ExecuteNames(db, t, sql, args, name);
      OperationLeavesNoSuchPoint(db, op, t', replies + [LastReply(t')], name);
    }
  }

  lemma ExecuteNames(db: Database, t: Tx, sql: string, args: seq<Value>, name: string)
    requires !NamesPoint(Parse(sql), name) && Unnamed(t.points, name)
    ensures Unnamed(Send(db, t, sql, args).points, name)
  {
  }

  lemma {:induction false} FindBase(b: Point, own: seq<Point>)
    requires Unnamed(own, b.name)
    ensures FindPoint([b] + own, b.name) == Some(0)
  {
    var all := [b] + own;
    if own != [] {
      assert all[..|all| - 1] == [b] + own[..|own| - 1];
      FindBase(b, own[..|own| - 1]);
    }
  }

  // ---------- one iteration ----------

  /** Between operations the transaction is active and has no savepoints. */
  predicate Settled(t: Tx) {
    t.status.Active? && t.points == []
  }

  lemma CreatedIsBase(db: Database, t: Tx, n: nat)
    requires Settled(t)
    ensures LastReply(CreatePoint(db, t, n)).Failed() <==> db.lost(|t.log|)
    ensures !db.lost(|t.log|) ==>
      CreatePoint(db, t, n) == WithBase(Point(PointName(n), t.session), Note(t, "SAVEPOINT " + PointName(n)))
  {
    SavepointRead(PointName(n));
    hide Parse;
    assert [] + [Point(PointName(n), t.session)] == [Point(PointName(n), t.session)] + [];
  }

  /** ROLLBACK TO restores the session of the savepoint, whatever the operation left above it. */
  lemma BackToBase(db: Database, n: nat, b: Point, t: Tx)
    requires b.name == PointName(n) && Unnamed(t.points, b.name) && !t.status.Closed?
    ensures LastReply(ToPoint(db, WithBase(b, t), n)).Failed() <==> db.lost(|t.log|)
    ensures !db.lost(|t.log|) ==>
      ToPoint(db, WithBase(b, t), n)
        == WithBase(b, Note(t, "ROLLBACK TO SAVEPOINT " + PointName(n)).(session := b.saved, status := Active,
          points := []))
  {
    RollbackToRead(PointName(n));
    FindBase(b, t.points);
    hide Parse, FindPoint;
    assert ([b] + t.points)[..1] == [b] + [];
    assert ([b] + t.points)[0] == b;
  }

  /** RELEASE drops the savepoint and everything above it; it is refused in the aborted state. */
  lemma ReleaseBase(db: Database, n: nat, b: Point, t: Tx)
    requires b.name == PointName(n) && Unnamed(t.points, b.name) && !t.status.Closed?
    ensures LastReply(ReleasePoint(db, WithBase(b, t), n)).Failed() <==> db.lost(|t.log|) || t.status.Aborted?
    ensures !db.lost(|t.log|) && t.status.Active? ==>
      ReleasePoint(db, WithBase(b, t), n) == Note(t, "RELEASE SAVEPOINT " + PointName(n)).(points := [])
  {
    ReleaseRead(PointName(n));
    FindBase(b, t.points);
    hide Parse, FindPoint;
    assert ([b] + t.points)[..0] == [];
  }

  /** When an iteration is not fatal: its savepoint commands are delivered, and an operation that reports no error
      has not left the transaction aborted. */
  ghost predicate IterationSucceeds(db: Database, op: Operation, n: nat, t: Tx) {
    var (ran, error) := RunOperation(db, op, Note(t, "SAVEPOINT " + PointName(n)), []);
    && !db.lost(|t.log|) && !db.lost(|ran.log|)
    && (if error.None? then ran.status.Active? else !db.lost(|ran.log| + 1))
  }

  /** One iteration is the plain step, exactly when nothing fatal happens. */
  lemma StepIsPlain(db: Database, op: Operation, n: nat, t: Tx, errors: seq<OpError>)
    requires Settled(t) && Differs(op, PointName(n))
    ensures Step(db, op, n, t, errors).fatal == None <==> IterationSucceeds(db, op, n, t)
    ensures IterationSucceeds(db, op, n, t) ==>
      Step(db, op, n, t, errors) == PlainStep(db, op, n, t, errors) && Settled(Step(db, op, n, t, errors).tx)
  {
    hide Send, Parse, RunOperation, CreatePoint, ToPoint, ReleasePoint;
    var b := Point(PointName(n), t.session);
    var noted := Note(t, "SAVEPOINT " + PointName(n));
    CreatedIsBase(db, t, n);
    if !db.lost(|t.log|) {
      OperationAbove(db, b, op, noted, []);
      OperationLeavesNoSuchPoint(db, op, noted, [], b.name);
      var (ran, error) := RunOperation(db, op, noted, []);
      if error.None? {
        ReleaseBase(db, n, b, ran);
      } else {
        BackToBase(db, n, b, ran);
        var back := Note(ran, "ROLLBACK TO SAVEPOINT " + PointName(n)).(session := b.saved, status := Active,
          points := []);
        ReleaseBase(db, n, b, back);
      }
    }
  }

  /** The harness's own commands in an iteration that succeeds: the savepoint first, then what the operation sends,
      after its error the rollback, and the release last. */
  lemma StepSends(db: Database, op: Operation, n: nat, t: Tx, errors: seq<OpError>)
    requires Settled(t) && Differs(op, PointName(n)) && IterationSucceeds(db, op, n, t)
    ensures var log := Step(db, op, n, t, errors).tx.log;
      var error := RunOperation(db, op, Note(t, "SAVEPOINT " + PointName(n)), []).1;
      var own := if error.None? then 2 else 3;
      && |log| >= |t.log| + own && t.log <= log
      && log[|t.log|].sql == "SAVEPOINT " + "pg_canary_" + Decimal(n)
      && log[|log| - 1].sql == "RELEASE SAVEPOINT " + "pg_canary_" + Decimal(n)
      && (error.Some? ==> log[|log| - 2].sql == "ROLLBACK TO SAVEPOINT " + "pg_canary_" + Decimal(n))
  {
    StepIsPlain(db, op, n, t, errors);
    PlainSends(db, op, n, t, errors);
    NameIs(n);
    hide *;
    Apart("SAVEPOINT ", n);
    Apart("RELEASE SAVEPOINT ", n);
    Apart("ROLLBACK TO SAVEPOINT ", n);
  }

  lemma NameIs(n: nat)
    ensures PointName(n) == "pg_canary_" + Decimal(n)
  {
  }

  lemma Apart(command: string, n: nat)
    requires PointName(n) == "pg_canary_" + Decimal(n)
    ensures command + PointName(n) == command + "pg_canary_" + Decimal(n)
  {
    hide PointName, Decimal;
  }

  lemma PlainSends(db: Database, op: Operation, n: nat, t: Tx, errors: seq<OpError>)
    ensures var log := PlainStep(db, op, n, t, errors).tx.log;
      var error := RunOperation(db, op, Note(t, "SAVEPOINT " + PointName(n)), []).1;
      && |log| >= |t.log| + (if error.None? then 2 else 3) && t.log <= log
      && log[|t.log|].sql == "SAVEPOINT " + PointName(n)
      && log[|log| - 1].sql == "RELEASE SAVEPOINT " + PointName(n)
      && (error.Some? ==> log[|log| - 2].sql == "ROLLBACK TO SAVEPOINT " + PointName(n))
  {
    var first := Note(t, "SAVEPOINT " + PointName(n));
    OperationLogs(db, op, first, []);
    hide RunOperation, PointName;
    assert first.log[|t.log|].sql == "SAVEPOINT " + PointName(n);
  }

  lemma {:induction false} OperationLogs(db: Database, op: Operation, t: Tx, replies: seq<Reply>)
    ensures t.log <= RunOperation(db, op, t, replies).0.log
    decreases op.limit - |replies|
  {
    if |replies| < op.limit && op.decide(replies).Some? {
      var (sql, args) := op.decide(replies).value;
      var t' := Send(db, t, sql, args);
      OperationLogs(db, op, t', replies + [LastReply(t')]);
    }
  }

  // ---------- the whole run ----------

  ghost predicate AllDiffer(ops: seq<Operation>) {
    forall k :: 0 <= k < |ops| ==> Differs(ops[k], PointName(k))
  }

  /** Without a fatal error the harness is the plain fold over the operations. */
  lemma {:induction false} RunIsPlain(db: Database, ops: seq<Operation>, n: nat, p: Progress)
    requires n <= |ops| && AllDiffer(ops) && Settled(p.tx) && p.fatal == None
    ensures RunFrom(db, ops, n, p).fatal == None ==>
      RunFrom(db, ops, n, p) == PlainFrom(db, ops, n, p) && Settled(RunFrom(db, ops, n, p).tx)
    decreases |ops| - n
  {
    hide Step, PlainStep, IterationSucceeds, Settled, Differs;
    if n < |ops| {
      var next := Step(db, ops[n], n, p.tx, p.errors);
      StepIsPlain(db, ops[n], n, p.tx, p.errors);
      if next.fatal == None {
        RunIsPlain(db, ops, n + 1, next);
      }
    }
  }

  function AsList(error: Option<OpError>): seq<OpError> {
    match error case None => [] case Some(e) => [e]
  }

  /** The error of operation n's own, if it was started. */
  function OwnError(db: Database, op: Operation, n: nat, t: Tx): seq<OpError> {
    var created := CreatePoint(db, t, n);
    if LastReply(created).Failed() then [] else AsList(RunOperation(db, op, created, []).1)
  }

  /** An iteration, fatal or not, adds its own operation's error and nothing else. */
  lemma StepAddsOwnError(db: Database, op: Operation, n: nat, t: Tx, errors: seq<OpError>)
    ensures Step(db, op, n, t, errors).errors == errors + OwnError(db, op, n, t)
  {
    hide Send, RunOperation;
  }

  /** The operations before a fatal one still run as the plain fold, and the errors are theirs in order, then at most
      the fatal operation's own. */
  lemma {:induction false} RunIsPlainUntilFatal(db: Database, ops: seq<Operation>, n: nat, p: Progress) returns (k: nat)
    requires n <= |ops| && AllDiffer(ops) && Settled(p.tx) && p.fatal == None
    requires RunFrom(db, ops, n, p).fatal.Some?
    ensures n <= k < |ops|
    ensures var before := PlainFrom(db, ops[..k], n, p);
      && Settled(before.tx) && before.fatal == None
      && !IterationSucceeds(db, ops[k], k, before.tx)
      && RunFrom(db, ops, n, p) == Step(db, ops[k], k, before.tx, before.errors)
      && RunFrom(db, ops, n, p).errors == before.errors + OwnError(db, ops[k], k, before.tx)
    decreases |ops| - n
  {
    hide Step, PlainStep, IterationSucceeds, Settled, Differs, OwnError;
    var next := Step(db, ops[n], n, p.tx, p.errors);
    StepIsPlain(db, ops[n], n, p.tx, p.errors);
    if next.fatal == None {
      k := RunIsPlainUntilFatal(db, ops, n + 1, next);
      assert ops[..k][n] == ops[n];
    } else {
      k := n;
      StepAddsOwnError(db, ops[n], n, p.tx, p.errors);
    }
  }

  /** A savepoint is created only on an active transaction, which it leaves active with its session as it was. */
  lemma CreatedIsActive(db: Database, t: Tx, n: nat)
    requires !LastReply(CreatePoint(db, t, n)).Failed()
    ensures t.status.Active? && CreatePoint(db, t, n).status.Active? && CreatePoint(db, t, n).session == t.session
  {
    SavepointRead(PointName(n));
    hide Parse;
    AcceptedOnActive(db, t, "SAVEPOINT " + PointName(n), []);
  }

  /** The transactions in which the operations of a run start, in order: after each savepoint that was created. */
  function StartsFrom(db: Database, ops: seq<Operation>, n: nat, p: Progress): seq<Tx>
    requires n <= |ops|
    decreases |ops| - n
  {
    if n == |ops| || p.fatal.Some? then []
    else
      var created := CreatePoint(db, p.tx, n);
      if LastReply(created).Failed() then []
      else [created] + StartsFrom(db, ops, n + 1, Step(db, ops[n], n, p.tx, p.errors))
  }

  /** In every run, whatever the operations do, each operation that is started starts on an active transaction. */
  lemma {:induction false} OperationsStartActive(db: Database, ops: seq<Operation>, n: nat, p: Progress)
    requires n <= |ops|
    ensures |StartsFrom(db, ops, n, p)| <= |ops| - n
    ensures forall t :: t in StartsFrom(db, ops, n, p) ==> t.status.Active?
    decreases |ops| - n
  {
    hide Step, Send;
    if n < |ops| && p.fatal.None? && !LastReply(CreatePoint(db, p.tx, n)).Failed() {
      CreatedIsActive(db, p.tx, n);
      OperationsStartActive(db, ops, n + 1, Step(db, ops[n], n, p.tx, p.errors));
    }
  }

  /** An operation that returns nil on a transaction it has aborted stops the run at its release. */
  lemma SilentAbortIsFatal(db: Database, op: Operation, n: nat, t: Tx, errors: seq<OpError>)
    requires Settled(t) && Differs(op, PointName(n)) && !db.lost(|t.log|)
    requires var (ran, error) := RunOperation(db, op, Note(t, "SAVEPOINT " + PointName(n)), []);
      error == None && ran.status.Aborted?
    ensures Step(db, op, n, t, errors).fatal == Some(ReleaseFailed)
  {
    hide Send, Parse, RunOperation, CreatePoint, ToPoint, ReleasePoint;
    var b := Point(PointName(n), t.session);
    var noted := Note(t, "SAVEPOINT " + PointName(n));
    CreatedIsBase(db, t, n);
    OperationAbove(db, b, op, noted, []);
    OperationLeavesNoSuchPoint(db, op, noted, [], b.name);
    ReleaseBase(db, n, b, RunOperation(db, op, noted, []).0);
  }

  lemma {:induction false} RunKeepsOuter(db: Database, ops: seq<Operation>, n: nat, p: Progress)
    requires n <= |ops| && !p.tx.status.Closed?
    ensures RunFrom(db, ops, n, p).tx.outer == p.tx.outer
    ensures !RunFrom(db, ops, n, p).tx.status.Closed?
    decreases |ops| - n
  {
    if n < |ops| && p.fatal.None? {
      StepKeepsOuter(db, ops[n], n, p.tx, p.errors);
      hide Step;
      RunKeepsOuter(db, ops, n + 1, Step(db, ops[n], n, p.tx, p.errors));
    }
  }

  lemma StepKeepsOuter(db: Database, op: Operation, n: nat, t: Tx, errors: seq<OpError>)
    requires !t.status.Closed?
    ensures Step(db, op, n, t, errors).tx.outer == t.outer
    ensures !Step(db, op, n, t, errors).tx.status.Closed?
  {
    hide Answer, RunOperation;
  }

  // ---------- the code ----------

  method Perform(op: Operation, tx: Transaction) returns (error: Option<OpError>)
    modifies tx
    ensures (tx.State(), error) == RunOperation(tx.db, op, old(tx.State()), [])
  {
    var replies: seq<Reply> := [];
    while |replies| < op.limit && op.decide(replies).Some?
      invariant RunOperation(tx.db, op, tx.State(), replies) == RunOperation(tx.db, op, old(tx.State()), [])
      decreases op.limit - |replies|
    {
      var (sql, args) := op.decide(replies).value;
      var reply := tx.Exec(sql, args);
      replies := replies + [reply];
    }
    error := op.finish(replies);
  }

  /** The error a caller sees of a run that began: the loop's, joined with the deferred outer rollback's. */
  function ErrorAfter(db: Database, p: Progress): Option<Fatal> {
    if EndingOf(db, p.tx).RollbackFailed? then Some(OuterRollbackFailed(p.fatal)) else p.fatal
  }

  /** The loop over all operations of a run that began. */
  function Looped(db: Database, s: Session, ops: seq<Operation>): Progress {
    RunFrom(db, ops, 0, Progress(Begin(s), [], None))
  }

  // ---------- the error of a run ----------

  /** What the first k operations come to as the plain fold. */
  ghost function Before(db: Database, s: Session, ops: seq<Operation>, k: nat): Progress
    requires k <= |ops|
  {
    PlainFrom(db, ops[..k], 0, Progress(Begin(s), [], None))
  }

  ghost predicate SucceedsAt(db: Database, s: Session, ops: seq<Operation>, k: nat)
    requires k < |ops|
  {
    IterationSucceeds(db, ops[k], k, Before(db, s, ops, k).tx)
  }

  /** Which command of an iteration ends it: the savepoint that is lost; after an error of the operation the rollback
      that is lost; else the release, lost or refused on a transaction that a silent operation has aborted. */
  ghost predicate EndsWith(db: Database, op: Operation, n: nat, t: Tx, f: Fatal) {
    var (ran, error) := RunOperation(db, op, Note(t, "SAVEPOINT " + PointName(n)), []);
    && (f == CreateFailed <==> db.lost(|t.log|))
    && (f == RollbackToFailed <==> !db.lost(|t.log|) && error.Some? && db.lost(|ran.log|))
    && (f == ReleaseFailed <==>
          && !db.lost(|t.log|)
          && if error.None? then db.lost(|ran.log|) || ran.status.Aborted?
             else !db.lost(|ran.log|) && db.lost(|ran.log| + 1))
  }

  lemma StepEndsWith(db: Database, op: Operation, n: nat, t: Tx, errors: seq<OpError>)
    requires Settled(t) && Differs(op, PointName(n)) && !IterationSucceeds(db, op, n, t)
    ensures var f := Step(db, op, n, t, errors).fatal; f.Some? && EndsWith(db, op, n, t, f.value)
  {
    hide Send, Parse, RunOperation, CreatePoint, ToPoint, ReleasePoint;
    var b := Point(PointName(n), t.session);
    var noted := Note(t, "SAVEPOINT " + PointName(n));
    CreatedIsBase(db, t, n);
    if !db.lost(|t.log|) {
      OperationAbove(db, b, op, noted, []);
      OperationLeavesNoSuchPoint(db, op, noted, [], b.name);
      var (ran, error) := RunOperation(db, op, noted, []);
      if error.None? {
        ReleaseBase(db, n, b, ran);
      } else {
        BackToBase(db, n, b, ran);
        var back := Note(ran, "ROLLBACK TO SAVEPOINT " + PointName(n)).(session := b.saved, status := Active,
          points := []);
        ReleaseBase(db, n, b, back);
      }
    }
  }

  /** The first iteration that does not succeed, and how it ends. */
  ghost predicate StopsAt(db: Database, s: Session, ops: seq<Operation>, k: nat, f: Fatal) {
    && k < |ops| && (forall j :: 0 <= j < k ==> SucceedsAt(db, s, ops, j))
    && !SucceedsAt(db, s, ops, k) && EndsWith(db, ops[k], k, Before(db, s, ops, k).tx, f)
  }

  /** What a run returns as its error, and as the transaction it leaves.  It is nil exactly when the transaction began,
      every iteration succeeded and the outer rollback was delivered.  Otherwise it is the failed begin, or how the
      first iteration that did not succeed ended; a failed outer rollback is joined to it. */
  ghost predicate ErrorIsExact(db: Database, s: Session, begins: bool, ops: seq<Operation>, err: Option<Fatal>,
          final: Option<Tx>) {
    if !begins then err == Some(BeginFailed) && final == None
    else
      && final.Some? && (db.lost(|final.value.log|) <==> !final.value.status.Closed?)
      && (err == None <==> AllSucceed(db, s, ops) && !db.lost(|final.value.log|))
      && (AllSucceed(db, s, ops) && db.lost(|final.value.log|) ==> err == Some(OuterRollbackFailed(None)))
      && (!AllSucceed(db, s, ops) ==> exists k: nat, f :: StopsAt(db, s, ops, k, f))
      && forall k: nat, f :: StopsAt(db, s, ops, k, f) ==>
           err == Some(if db.lost(|final.value.log|) then OuterRollbackFailed(Some(f)) else f)
  }

  ghost predicate AllSucceed(db: Database, s: Session, ops: seq<Operation>) {
    forall k :: 0 <= k < |ops| ==> SucceedsAt(db, s, ops, k)
  }

  /** Before iteration k of a run the transaction is settled, if all earlier ones succeeded. */
  lemma {:induction false} BeforeIsReached(db: Database, s: Session, ops: seq<Operation>, k: nat)
    requires k <= |ops| && AllDiffer(ops) && forall j :: 0 <= j < k ==> SucceedsAt(db, s, ops, j)
    ensures var b := Before(db, s, ops, k);
      && Settled(b.tx) && b.fatal == None && !b.tx.status.Closed?
      && Looped(db, s, ops) == RunFrom(db, ops, k, b)
      && (k < |ops| ==> Differs(ops[k], PointName(k)))
  {
    if k > 0 {
      var b := Before(db, s, ops, k - 1);
      BeforeIsReached(db, s, ops, k - 1);
      assert SucceedsAt(db, s, ops, k - 1);
      hide Step, PlainStep, IterationSucceeds, Settled, Differs;
      StepIsPlain(db, ops[k - 1], k - 1, b.tx, b.errors);
      PlainSnoc(db, ops, 0, k, Progress(Begin(s), [], None));
      SettledIsOpen(Before(db, s, ops, k).tx);
    }
  }

  lemma SettledIsOpen(t: Tx)
    ensures Settled(t) ==> !t.status.Closed?
  {
  }

  lemma {:induction false} PlainSnoc(db: Database, ops: seq<Operation>, n: nat, k: nat, p: Progress)
    requires n < k <= |ops|
    ensures var b := PlainFrom(db, ops[..k - 1], n, p);
      PlainFrom(db, ops[..k], n, p) == PlainStep(db, ops[k - 1], k - 1, b.tx, b.errors)
    decreases k - n
  {
    hide PlainStep;
    if n < k - 1 {
      assert ops[..k][n] == ops[n] == ops[..k - 1][n];
      PlainSnoc(db, ops, n + 1, k, PlainStep(db, ops[n], n, p.tx, p.errors));
    }
  }

  lemma SomeStop(db: Database, s: Session, ops: seq<Operation>) returns (k: nat)
    requires AllDiffer(ops) && !AllSucceed(db, s, ops)
    ensures k < |ops| && !SucceedsAt(db, s, ops, k) && forall j :: 0 <= j < k ==> SucceedsAt(db, s, ops, j)
  {
    k := 0;
    while SucceedsAt(db, s, ops, k)
      invariant k < |ops| && forall j :: 0 <= j < k ==> SucceedsAt(db, s, ops, j)
      decreases |ops| - k
    {
      k := k + 1;
    }
  }

  /** How the loop of a run ends. */
  lemma LoopEnds(db: Database, s: Session, ops: seq<Operation>)
    requires AllDiffer(ops)
    ensures Looped(db, s, ops).fatal == None <==> AllSucceed(db, s, ops)
    ensures !AllSucceed(db, s, ops) ==> exists k: nat, f :: StopsAt(db, s, ops, k, f)
    ensures forall k: nat, f :: StopsAt(db, s, ops, k, f) ==> Looped(db, s, ops).fatal == Some(f)
  {
    hide Looped, Before, AllDiffer, IterationSucceeds, EndsWith;
    if AllSucceed(db, s, ops) {
      BeforeIsReached(db, s, ops, |ops|);
    } else {
      var k := SomeStop(db, s, ops);
      StopReached(db, s, ops, k);
      BeforeIsReached(db, s, ops, k);
      assert StopsAt(db, s, ops, k, Looped(db, s, ops).fatal.value);
      forall j: nat, f | StopsAt(db, s, ops, j, f) ensures j == k && Looped(db, s, ops).fatal == Some(f) {
        OneEnd(db, ops[k], k, Before(db, s, ops, k).tx, f, Looped(db, s, ops).fatal.value);
      }
    }
  }

  lemma StopReached(db: Database, s: Session, ops: seq<Operation>, k: nat)
    requires AllDiffer(ops) && k < |ops| && !SucceedsAt(db, s, ops, k)
    requires forall j :: 0 <= j < k ==> SucceedsAt(db, s, ops, j)
    ensures var f := Looped(db, s, ops).fatal;
      f.Some? && EndsWith(db, ops[k], k, Before(db, s, ops, k).tx, f.value)
  {
    var b := Before(db, s, ops, k);
    BeforeIsReached(db, s, ops, k);
    hide Step, Before, Looped, Settled, EndsWith, Differs, AllDiffer;
    StepEndsWith(db, ops[k], k, b.tx, b.errors);
  }

  /** An iteration ends in one way only. */
  lemma OneEnd(db: Database, op: Operation, n: nat, t: Tx, f: Fatal, g: Fatal)
    requires EndsWith(db, op, n, t, f) && EndsWith(db, op, n, t, g) && !IterationSucceeds(db, op, n, t)
    requires !t.status.Closed?
    ensures f == g
  {
    hide RunOperation;
  }

  lemma RunErrorIsExact(db: Database, s: Session, ops: seq<Operation>)
    requires AllDiffer(ops)
    ensures var p := Looped(db, s, ops);
      ErrorIsExact(db, s, true, ops, ErrorAfter(db, p), Some(End(db, p.tx)))
  {
    LoopEnds(db, s, ops);
    RunKeepsOuter(db, ops, 0, Progress(Begin(s), [], None));
    hide RunFrom, AllSucceed, StopsAt;
  }

  method RunLoop(ops: seq<Operation>, tx: Transaction)
    returns (errors: seq<OpError>, err: Option<Fatal>, ghost starts: seq<Tx>)
    modifies tx
    ensures Progress(tx.State(), errors, err) == RunFrom(tx.db, ops, 0, Progress(old(tx.State()), [], None))
    ensures starts == StartsFrom(tx.db, ops, 0, Progress(old(tx.State()), [], None))
  {
    hide Send, RunOperation;
    errors, starts := [], [];
    for n := 0 to |ops|
      invariant RunFrom(tx.db, ops, n, Progress(tx.State(), errors, None))
        == RunFrom(tx.db, ops, 0, Progress(old(tx.State()), [], None))
      invariant starts + StartsFrom(tx.db, ops, n, Progress(tx.State(), errors, None))
        == StartsFrom(tx.db, ops, 0, Progress(old(tx.State()), [], None))
    {
      ghost var rest := StartsFrom(tx.db, ops, n, Progress(tx.State(), errors, None));
      var reply := tx.Exec("SAVEPOINT " + PointName(n), []);
      if reply.Failed() {
        return errors, Some(CreateFailed), starts;
      }
      assert starts + rest == (starts + [tx.State()]) + rest[1..];
      starts := starts + [tx.State()];
      var error := Perform(ops[n], tx);
      if error.Some? {
        errors := errors + [error.value];
        reply := tx.Exec("ROLLBACK TO SAVEPOINT " + PointName(n), []);
        if reply.Failed() {
          return errors, Some(RollbackToFailed), starts;
        }
      }
      reply := tx.Exec("RELEASE SAVEPOINT " + PointName(n), []);
      if reply.Failed() {
        return errors, Some(ReleaseFailed), starts;
      }
    }
    err := None;
  }

  /** `Run`: begin, the loop, and the deferred rollback on every path. */
  method Run(db: Database, s: Session, begins: bool, ops: seq<Operation>)
    returns (errors: seq<OpError>, err: Option<Fatal>, ghost final: Option<Tx>, ghost starts: seq<Tx>)
    ensures !begins ==> errors == [] && err == Some(BeginFailed)
    ensures begins ==> errors == Looped(db, s, ops).errors && err == ErrorAfter(db, Looped(db, s, ops))
    ensures final == if begins then Some(End(db, Looped(db, s, ops).tx)) else None
    ensures starts == if begins then StartsFrom(db, ops, 0, Progress(Begin(s), [], None)) else []
    ensures AllDiffer(ops) ==> ErrorIsExact(db, s, begins, ops, err, final)
  {
    if !begins {
      return [], Some(BeginFailed), None, [];
    }
    var tx := new Transaction(db, s);
    errors, err, starts := RunLoop(ops, tx);
    var ending := tx.Rollback();
    if ending.RollbackFailed? {
      err := Some(OuterRollbackFailed(err));
    }
    final := Some(tx.State());
    if AllDiffer(ops) {
      RunErrorIsExact(db, s, ops);
    }
  }

  /** Every exit restores data, role and settings, or reports that the outer rollback failed. */
  lemma EveryExitRestores(db: Database, s: Session, ops: seq<Operation>)
    ensures var final, err := End(db, Looped(db, s, ops).tx), ErrorAfter(db, Looped(db, s, ops));
      (final.status.Closed? && final.session == s) || (err.Some? && err.value.OuterRollbackFailed?)
  {
    RunKeepsOuter(db, ops, 0, Progress(Begin(s), [], None));
  }
}
