/** The release gate over a scan's status and findings (scripts/scan_vulnerabilities.py:117-156). */
module ScanGate {
  import opened VulnerabilityScan

  datatype Threshold = NoThreshold | OnCritical | OnHigh | OnAny

  predicate Severe(f: Finding, threshold: Threshold) {
    match threshold
    case NoThreshold => false
    case OnCritical => f.advisory.severity == "CRITICAL"
    case OnHigh => f.advisory.severity == "CRITICAL" || f.advisory.severity == "HIGH"
    case OnAny => true
  }

  function CountSevere(findings: seq<Finding>, threshold: Threshold): nat {
    if findings == [] then 0
    else CountSevere(findings[..|findings| - 1], threshold)
         + if Severe(findings[|findings| - 1], threshold) then 1 else 0
  }

  /** `evaluate_vulnerability_gate`. */
  predicate GatePasses(status: ScanStatus, findings: seq<Finding>, requireClean: bool, threshold: Threshold) {
    match status
    case Vulnerable => !requireClean && CountSevere(findings, threshold) == 0
    case Clean => true
    case _ => false
  }

  lemma {:induction false} CountSevereZero(findings: seq<Finding>, threshold: Threshold)
    ensures CountSevere(findings, threshold) == 0 <==> forall f | f in findings :: !Severe(f, threshold)
  {
    if findings != [] {
      var init, last := findings[..|findings| - 1], findings[|findings| - 1];
      CountSevereZero(init, threshold);
      assert findings == init + [last];
      assert forall f :: f in findings <==> f in init || f == last;
    }
  }

  /** A finding the gate's settings do not let pass, setting by setting. */
  predicate Barred(f: Finding, requireClean: bool, threshold: Threshold) {
    || requireClean
    || threshold == OnAny
    || (f.advisory.severity == "CRITICAL" && threshold in [OnCritical, OnHigh])
    || (f.advisory.severity == "HIGH" && threshold == OnHigh)
  }

  /** Apart from the failing statuses, the gate opens exactly when no finding is barred. */
  lemma GateIff(findings: seq<Finding>, requireClean: bool, threshold: Threshold)
    ensures
      var status := if findings != [] then Vulnerable else Clean;
      GatePasses(status, findings, requireClean, threshold) <==>
      forall f | f in findings :: !Barred(f, requireClean, threshold)
  {
    CountSevereZero(findings, threshold);
    if findings != [] {
      assert findings[0] in findings;
    }
  }
}
