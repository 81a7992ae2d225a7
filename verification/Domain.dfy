/** The data contracts shared by the other modules (internal/domain/types.go). */
module Domain {
  /** A decoded fixture value: SQL NULL, or a value known by its dynamic type and its printed form. */
  datatype Value = Null | Datum(typeName: string, text: string)

  type Row = map<string, Value>

  /** The Go type is a string; `Other` is any name outside the four supported ones. */
  datatype Operation = Select | Update | Delete | Insert | Other(name: string) {
    predicate Valid() {
      !Other?
    }
  }

  datatype Outcome = Pass | Fail | Inconclusive | Blocked

  datatype Severity = Info | Warning | Unsure | Blocking

  datatype Finding = Finding(code: string, severity: Severity, target: string, message: string, detail: string)

  datatype Evidence = Evidence(
    table: string, operation: Operation, denied: bool, rowsAffected: nat, rowsReturned: nat,
    sqlState: string, template: string, error: string)

  datatype Server = Server(product: string, version: string)

  datatype Report = Report(
    outcome: Outcome, summary: string, server: Server, findings: seq<Finding>, operations: seq<Evidence>,
    sensitiveValues: seq<string>)

  datatype Identity = Identity(role: string, settings: map<string, string>)

  datatype Fixture = Fixture(table: string, ownerRow: Row, sensitiveColumns: seq<string>)

  datatype Attack = Attack(
    table: string, primaryKey: seq<string>, protectedColumns: seq<string>, operations: seq<Operation>,
    mutation: Row, insert: Row)

  datatype Profile = Profile(
    version: int, schema: string, requireDisposable: bool, owner: Identity, adversary: Identity,
    fixtures: seq<Fixture>, attacks: seq<Attack>)

  /** Only the four supported operations are listed. */
  ghost predicate AllSupported(p: Profile) {
    forall a, op :: a in p.attacks && op in a.operations ==> op.Valid()
  }
}
