/** The verdict over findings, controls and evidence (internal/evaluate/evaluate.go). */
module Evaluate {
  import opened Domain

  predicate HasSeverity(findings: seq<Finding>, severity: Severity) {
    exists i :: 0 <= i < |findings| && findings[i].severity == severity
  }

  predicate Covers(evidence: seq<Evidence>, op: Operation) {
    exists i :: 0 <= i < |evidence| && evidence[i].operation == op
  }

  predicate AllCovered(required: seq<Operation>, evidence: seq<Evidence>) {
    forall i :: 0 <= i < |required| ==> Covers(evidence, required[i])
  }

  /** An error that is not a denial says nothing about isolation. */
  predicate Unclear(evidence: seq<Evidence>) {
    exists i :: 0 <= i < |evidence| && evidence[i].error != "" && !evidence[i].denied
  }

  predicate AllDenied(evidence: seq<Evidence>) {
    forall i :: 0 <= i < |evidence| ==> evidence[i].denied
  }

  /** The four outcomes in their order of precedence. */
  function Verdict(controlOK: bool, findings: seq<Finding>, required: seq<Operation>,
          evidence: seq<Evidence>): Outcome {
    if HasSeverity(findings, Blocking) then Blocked
    else if !controlOK || HasSeverity(findings, Unsure) then Inconclusive
    else if evidence == [] || !AllCovered(required, evidence) || Unclear(evidence) then Inconclusive
    else if AllDenied(evidence) then Pass
    else Fail
  }

  /** Nothing found against the run, every control succeeded, and everything required was attempted. */
  predicate Conclusive(controlOK: bool, findings: seq<Finding>, required: seq<Operation>, evidence: seq<Evidence>) {
    && !HasSeverity(findings, Blocking) && !HasSeverity(findings, Unsure)
    && controlOK && evidence != [] && AllCovered(required, evidence)
  }

  /** `pass` exactly when a conclusive run was denied throughout, `fail` exactly when it was not and no error clouds
      it; a blocking finding blocks whatever else is the case, and everything else is inconclusive. */
  lemma VerdictsAreExact(controlOK: bool, findings: seq<Finding>, required: seq<Operation>, evidence: seq<Evidence>)
    ensures Verdict(controlOK, findings, required, evidence) == Pass
      <==> Conclusive(controlOK, findings, required, evidence) && AllDenied(evidence)
    ensures Verdict(controlOK, findings, required, evidence) == Fail
      <==> Conclusive(controlOK, findings, required, evidence) && !AllDenied(evidence) && !Unclear(evidence)
    ensures Verdict(controlOK, findings, required, evidence) == Blocked
      <==> exists f :: f in findings && f.severity == Blocking
    ensures (forall f :: f in findings ==> f.severity != Blocking)
      && (!controlOK || exists f :: f in findings && f.severity == Unsure)
      ==> Verdict(controlOK, findings, required, evidence) == Inconclusive
  {
    if f :| f in findings && f.severity == Blocking {
      var i :| 0 <= i < |findings| && findings[i] == f;
    }
    if f :| f in findings && f.severity == Unsure {
      var i :| 0 <= i < |findings| && findings[i] == f;
    }
    if AllDenied(evidence) {
      assert !Unclear(evidence);
    }
  }

  method Outcome(controlOK: bool, findings: seq<Finding>, required: seq<Operation>, evidence: seq<Evidence>)
    returns (o: Outcome)
    ensures o == Verdict(controlOK, findings, required, evidence)
  {
    for i := 0 to |findings|
      invariant forall k :: 0 <= k < i ==> findings[k].severity != Blocking
    {
      if findings[i].severity == Blocking {
        return Blocked;
      }
    }
    if !controlOK {
      return Inconclusive;
    }
    for i := 0 to |findings|
      invariant forall k :: 0 <= k < i ==> findings[k].severity != Unsure
    {
      if findings[i].severity == Unsure {
        return Inconclusive;
      }
    }
    if evidence == [] {
      return Inconclusive;
    }
    var seen: map<Operation, bool> := map[];
    for i := 0 to |evidence|
      invariant forall op :: op in seen <==> exists k :: 0 <= k < i && evidence[k].operation == op
    {
      seen := seen[evidence[i].operation := true];
    }
    for i := 0 to |required|
      invariant forall k :: 0 <= k < i ==> Covers(evidence, required[k])
    {
      if required[i] !in seen {
        return Inconclusive;
      }
    }
    for i := 0 to |evidence|
      invariant forall k :: 0 <= k < i ==> evidence[k].error == "" || evidence[k].denied
    {
      if evidence[i].error != "" && !evidence[i].denied {
        return Inconclusive;
      }
    }
    for i := 0 to |evidence|
      invariant forall k :: 0 <= k < i ==> evidence[k].denied
    {
      if !evidence[i].denied {
        return Fail;
      }
    }
    return Pass;
  }
}
