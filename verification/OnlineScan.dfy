/**
 The online scan once its targets have reported: deduplication of findings, overall status and the
 release gate (scripts/scan_vulnerabilities.py:749-845).
 */
module OnlineScan {
  import opened Common
  import opened Purl
  import opened VulnerabilityScan
  import opened ScanGate

  /** What one target came to; the numbers count messages. */
  datatype TargetReport = TargetReport(findings: seq<Finding>, errors: nat, unavailable: nat, invalid: nat)

  /** Findings are told apart by package name and advisory only. */
  predicate SameKey(f: Finding, g: Finding) {
    f.package.name == g.package.name && f.advisory.id == g.advisory.id
  }

  predicate HasKey(fs: seq<Finding>, f: Finding) {
    exists g :: g in fs && SameKey(g, f)
  }

  function FirstSeen(fs: seq<Finding>): seq<Finding> {
    if fs == [] then []
    else
      var init, last := FirstSeen(fs[..|fs| - 1]), fs[|fs| - 1];
      if HasKey(init, last) then init else init + [last]
  }

  function AllFindings(reports: seq<TargetReport>): seq<Finding> {
    if reports == [] then [] else AllFindings(reports[..|reports| - 1]) + reports[|reports| - 1].findings
  }

  /** The overall status, by priority. */
  function OverallStatus(reports: seq<TargetReport>): ScanStatus {
    if exists r :: r in reports && r.invalid > 0 then InvalidInput
    else if exists r :: r in reports && r.unavailable > 0 then ScanUnavailable
    else if exists r :: r in reports && r.errors > 0 then ScanError
    else if AllFindings(reports) != [] then Vulnerable
    else Clean
  }

  /** The four bad news in their order of precedence, and CLEAN only without any and without findings. */
  lemma StatusPriority(reports: seq<TargetReport>)
    ensures OverallStatus(reports) == InvalidInput <==> exists r :: r in reports && r.invalid > 0
    ensures OverallStatus(reports) == ScanUnavailable <==>
            (exists r :: r in reports && r.unavailable > 0) && forall r | r in reports :: r.invalid == 0
    ensures OverallStatus(reports) == ScanError <==>
            (exists r :: r in reports && r.errors > 0)
            && forall r | r in reports :: r.invalid == 0 && r.unavailable == 0
    ensures OverallStatus(reports) == Clean <==> AllAnswered(reports) && forall r | r in reports :: r.findings == []
  {
    NoFindingsIff(reports);
  }

  lemma {:induction false} NoFindingsIff(reports: seq<TargetReport>)
    ensures AllFindings(reports) == [] <==> forall r | r in reports :: r.findings == []
  {
    if reports != [] {
      NoFindingsIff(reports[..|reports| - 1]);
      assert reports == reports[..|reports| - 1] + [reports[|reports| - 1]];
    }
  }

  lemma {:induction false} FirstSeenEmpty(fs: seq<Finding>)
    ensures FirstSeen(fs) == [] <==> fs == []
  {
    if fs != [] {
      FirstSeenEmpty(fs[..|fs| - 1]);
    }
  }

  method Deduplicate(fs: seq<Finding>) returns (unique: seq<Finding>)
    ensures unique == FirstSeen(fs)
  {
    unique := [];
    var seen: set<(string, string)> := {};
    for i := 0 to |fs|
      invariant unique == FirstSeen(fs[..i])
      invariant seen == set g | g in unique :: (g.package.name, g.advisory.id)
    {
      assert fs[..i + 1][..i] == fs[..i];
      var key := (fs[i].package.name, fs[i].advisory.id);
      assert key in seen <==> HasKey(unique, fs[i]);
      if key !in seen {
        seen := seen + {key};
        unique := unique + [fs[i]];
      }
    }
    assert fs[..|fs|] == fs;
  }

  /** The targets' findings and messages, collected. */
  method Collect(reports: seq<TargetReport>) returns (all: seq<Finding>, errors: nat, unavailable: nat, invalid: nat)
    ensures all == AllFindings(reports)
    ensures errors > 0 <==> exists r :: r in reports && r.errors > 0
    ensures unavailable > 0 <==> exists r :: r in reports && r.unavailable > 0
    ensures invalid > 0 <==> exists r :: r in reports && r.invalid > 0
  {
    all := [];
    errors, unavailable, invalid := 0, 0, 0;
    for i := 0 to |reports|
      invariant all == AllFindings(reports[..i])
      invariant errors > 0 <==> exists r :: r in reports[..i] && r.errors > 0
      invariant unavailable > 0 <==> exists r :: r in reports[..i] && r.unavailable > 0
      invariant invalid > 0 <==> exists r :: r in reports[..i] && r.invalid > 0
    {
      assert reports[..i + 1][..i] == reports[..i] && reports[..i + 1] == reports[..i] + [reports[i]];
      assert forall r :: r in reports[..i + 1] <==> r in reports[..i] || r == reports[i];
      all := all + reports[i].findings;
      errors := errors + reports[i].errors;
      unavailable := unavailable + reports[i].unavailable;
      invalid := invalid + reports[i].invalid;
    }
    assert reports[..|reports|] == reports;
  }

  /** `scan` after its targets have been scanned. */
  method Conclude(reports: seq<TargetReport>) returns (status: ScanStatus, findings: seq<Finding>)
    ensures status == OverallStatus(reports) && findings == FirstSeen(AllFindings(reports))
  {
    var all, errors, unavailable, invalid := Collect(reports);
    findings := Deduplicate(all);
    FirstSeenEmpty(all);
    status := if invalid > 0 then InvalidInput else if unavailable > 0 then ScanUnavailable
              else if errors > 0 then ScanError else if findings != [] then Vulnerable else Clean;
  }

  /** No earlier finding has the key of the one at position `i`. */
  predicate IsFirst(fs: seq<Finding>, i: nat)
    requires i < |fs|
  {
    forall j | 0 <= j < i :: !SameKey(fs[j], fs[i])
  }

  /** What deduplication keeps: the findings that are the first with their key. */
  lemma {:induction false} FirstSeenMember(fs: seq<Finding>, f: Finding)
    ensures f in FirstSeen(fs) <==> exists i :: 0 <= i < |fs| && fs[i] == f && IsFirst(fs, i)
  {
    if fs != [] {
      var n := |fs| - 1;
      FirstSeenMember(fs[..n], f);
      if i :| 0 <= i < n && fs[..n][i] == f && IsFirst(fs[..n], i) {
        assert fs[i] == f && IsFirst(fs, i);
      }
      if i :| 0 <= i < |fs| && fs[i] == f && IsFirst(fs, i) && i < n {
        assert fs[..n][i] == f && IsFirst(fs[..n], i);
      }
      FirstSeenKeys(fs[..n], fs[n]);
    }
  }

  lemma {:induction false} FirstSeenKeys(fs: seq<Finding>, f: Finding)
    ensures HasKey(FirstSeen(fs), f) <==> exists j :: 0 <= j < |fs| && SameKey(fs[j], f)
  {
    if fs != [] {
      var n := |fs| - 1;
      FirstSeenKeys(fs[..n], f);
      FirstSeenKeys(fs[..n], fs[n]);
      if j :| 0 <= j < n && SameKey(fs[..n][j], f) {
        assert SameKey(fs[j], f);
      }
      if j :| 0 <= j < |fs| && SameKey(fs[j], f) && j < n {
        assert SameKey(fs[..n][j], f);
      }
    }
  }

  /** Nothing went wrong at any target. */
  predicate AllAnswered(reports: seq<TargetReport>) {
    forall r | r in reports :: r.invalid == 0 && r.unavailable == 0 && r.errors == 0
  }

  /**
   After an online scan the gate opens exactly when every target answered and no finding that is
   the first with its package and advisory is barred by the gate's settings.
   */
  lemma OnlineGateIff(reports: seq<TargetReport>, requireClean: bool, threshold: Threshold)
    ensures
      var all := AllFindings(reports);
      GatePasses(OverallStatus(reports), FirstSeen(all), requireClean, threshold) <==>
      AllAnswered(reports) && forall i | 0 <= i < |all| && IsFirst(all, i) :: !Barred(all[i], requireClean, threshold)
  {
    var all := AllFindings(reports);
    FirstSeenEmpty(all);
    GateIff(FirstSeen(all), requireClean, threshold);
    forall f: Finding
      ensures f in FirstSeen(all) <==> exists i :: 0 <= i < |all| && all[i] == f && IsFirst(all, i)
    {
      FirstSeenMember(all, f);
    }
    forall i | 0 <= i < |all| && IsFirst(all, i) ensures all[i] in FirstSeen(all) {
    }
  }

  lemma {:induction false} FirstWithKey(fs: seq<Finding>, i: nat) returns (k: nat)
    requires i < |fs|
    ensures k <= i && SameKey(fs[k], fs[i]) && IsFirst(fs, k)
  {
    k := i;
    if !IsFirst(fs, i) {
      var j :| 0 <= j < i && SameKey(fs[j], fs[i]);
      k := FirstWithKey(fs, j);
    }
  }

  /** Before position `i` the same advisory is reported on the same package, but not barred. */
  predicate Masked(fs: seq<Finding>, i: nat, requireClean: bool, threshold: Threshold)
    requires i < |fs|
  {
    exists j :: 0 <= j < i && SameKey(fs[j], fs[i]) && !Barred(fs[j], requireClean, threshold)
  }

  predicate SomeBarred(fs: seq<Finding>, requireClean: bool, threshold: Threshold) {
    exists i :: 0 <= i < |fs| && Barred(fs[i], requireClean, threshold)
  }

  lemma NoFirstBarredIff(fs: seq<Finding>, requireClean: bool, threshold: Threshold)
    ensures (forall i | 0 <= i < |fs| && IsFirst(fs, i) :: !Barred(fs[i], requireClean, threshold)) <==>
            (forall i | 0 <= i < |fs| && Barred(fs[i], requireClean, threshold) ::
               Masked(fs, i, requireClean, threshold))
  {
    forall i | 0 <= i < |fs| && Barred(fs[i], requireClean, threshold)
      ensures (forall k | 0 <= k < |fs| && IsFirst(fs, k) :: !Barred(fs[k], requireClean, threshold))
              ==> Masked(fs, i, requireClean, threshold)
      ensures IsFirst(fs, i) ==> !Masked(fs, i, requireClean, threshold)
    {
      var k := FirstWithKey(fs, i);
    }
  }

  /**
   The gate opens although some finding is barred exactly when every target answered and each
   barred finding is masked by an earlier, milder report of the same advisory on the same package.
   */
  lemma GateMisledIff(reports: seq<TargetReport>, requireClean: bool, threshold: Threshold)
    ensures
      var all := AllFindings(reports);
      (GatePasses(OverallStatus(reports), FirstSeen(all), requireClean, threshold)
       && SomeBarred(all, requireClean, threshold))
      <==>
      (&& AllAnswered(reports) && SomeBarred(all, requireClean, threshold)
       && forall i | 0 <= i < |all| && Barred(all[i], requireClean, threshold) ::
            Masked(all, i, requireClean, threshold))
  {
    OnlineGateIff(reports, requireClean, threshold);
    NoFirstBarredIff(AllFindings(reports), requireClean, threshold);
  }

  /** Such reports exist: a milder report seen first opens the gate that the other order keeps shut. */
  lemma FirstReportPrevails(mild: Finding, severe: Finding, threshold: Threshold)
    requires SameKey(mild, severe) && !Severe(mild, threshold) && Severe(severe, threshold)
    ensures
      var lax, strict := TargetReport([mild, severe], 0, 0, 0), TargetReport([severe, mild], 0, 0, 0);
      && GatePasses(OverallStatus([lax]), FirstSeen(AllFindings([lax])), false, threshold)
      && !GatePasses(OverallStatus([strict]), FirstSeen(AllFindings([strict])), false, threshold)
  {
    var lax, strict := TargetReport([mild, severe], 0, 0, 0), TargetReport([severe, mild], 0, 0, 0);
    FindingsOfOne(lax);
    FindingsOfOne(strict);
    OnlineGateIff([lax], false, threshold);
    OnlineGateIff([strict], false, threshold);
    assert IsFirst([severe, mild], 0) && !IsFirst([mild, severe], 1);
  }

  lemma FindingsOfOne(report: TargetReport)
    ensures AllFindings([report]) == report.findings
  {
    assert [report][..0] == [];
  }

  // ----- From the document to the gate -----

  /** How the scan of a document enters the overall result. */
  function ReportOf(findings: seq<Finding>, failure: Option<ScanStatus>): TargetReport {
    match failure
    case None => TargetReport(findings, 0, 0, 0)
    case Some(InvalidInput) => TargetReport(findings, 0, 0, 1)
    case Some(ScanUnavailable) => TargetReport(findings, 0, 1, 0)
    case Some(_) => TargetReport(findings, 1, 0, 0)
  }

  /** What a document with these package URLs comes to. */
  function DocumentReport(purls: seq<string>, ask: (nat, seq<Package>) -> Response<seq<Advisory>>): TargetReport {
    var queries := QueriesOf(purls);
    var problem := FirstProblem(queries, ask, ChunkCount(|queries|));
    if !Readable(purls) then ReportOf([], Some(InvalidInput))
    else if problem.Some? then ReportOf([], problem)
    else
      FirstProblemNone(queries, ask, ChunkCount(|queries|));
      CollectedLength(queries, ask, ChunkCount(|queries|));
      ReportOf(Attribute(queries, AnswersTo(purls, ask), |queries|), None)
  }

  /** `scan` on a document alone, without the Node.js targets. */
  method ScanDocument(purls: seq<string>, ask: (nat, seq<Package>) -> Response<seq<Advisory>>)
    returns (status: ScanStatus, findings: seq<Finding>)
    ensures status == OverallStatus([DocumentReport(purls, ask)])
    ensures findings == FirstSeen(AllFindings([DocumentReport(purls, ask)]))
  {
    var reported, failure := ScanSbom(purls, ask);
    ghost var queries := QueriesOf(purls);
    FirstProblemNone(queries, ask, ChunkCount(|queries|));
    if Readable(purls) && failure.Some? {
      ghost var k :| FirstFailure(queries, ask, k, failure);
      FirstFailureIsProblem(queries, ask, k, failure, ChunkCount(|queries|));
    }
    status, findings := Conclude([ReportOf(reported, failure)]);
  }

  /** The scan goes through exactly when something can be queried, or there is nothing, and all is answered. */
  lemma DocumentAnsweredIff(purls: seq<string>, ask: (nat, seq<Package>) -> Response<seq<Advisory>>)
    ensures AllAnswered([DocumentReport(purls, ask)]) <==> Readable(purls) && Answered(purls, ask)
  {
    var report := DocumentReport(purls, ask);
    FirstProblemNone(QueriesOf(purls), ask, ChunkCount(|QueriesOf(purls)|));
    assert report in [report];
  }

  /** No finding of the document that is the first with its package and advisory is barred. */
  predicate NoFirstBarred(fs: seq<Finding>, requireClean: bool, threshold: Threshold) {
    forall i | 0 <= i < |fs| && IsFirst(fs, i) :: !Barred(fs[i], requireClean, threshold)
  }

  /** The gate's answer after the scan of a document. */
  predicate DocumentPasses(purls: seq<string>, ask: (nat, seq<Package>) -> Response<seq<Advisory>>,
                           requireClean: bool, threshold: Threshold)
  {
    var report := DocumentReport(purls, ask);
    GatePasses(OverallStatus([report]), FirstSeen(AllFindings([report])), requireClean, threshold)
  }

  /**
   From package URLs to release decision: the gate opens exactly when some package URL can be
   queried, or there are none, all chunks are answered in full, and no first finding is barred.
   */
  lemma DocumentGateIff(purls: seq<string>, ask: (nat, seq<Package>) -> Response<seq<Advisory>>, requireClean: bool,
                        threshold: Threshold)
    ensures DocumentPasses(purls, ask, requireClean, threshold) <==>
            && (purls == [] || exists p :: p in purls && ParseOnline(p).Some?)
            && Answered(purls, ask)
            && NoFirstBarred(DocumentReport(purls, ask).findings, requireClean, threshold)
  {
    var report := DocumentReport(purls, ask);
    FindingsOfOne(report);
    OnlineGateIff([report], requireClean, threshold);
    DocumentAnsweredIff(purls, ask);
    ReadableIff(purls);
  }

  lemma ReadableIff(purls: seq<string>)
    ensures Readable(purls) <==> purls == [] || exists p :: p in purls && ParseOnline(p).Some?
  {
    var queries := QueriesOf(purls);
    if queries != [] {
      QueriesMember(purls, queries[0]);
    }
    if p :| p in purls && ParseOnline(p).Some? {
      QueriesMember(purls, ParseOnline(p).value);
    }
  }

  /**
   The gate opens although some component was never queried exactly when one cannot be queried,
   another can, and for those that can all is answered and no first finding is barred.
   */
  lemma PassesUnqueriedIff(purls: seq<string>, ask: (nat, seq<Package>) -> Response<seq<Advisory>>,
                           requireClean: bool, threshold: Threshold)
    ensures
      (DocumentPasses(purls, ask, requireClean, threshold) && exists p :: p in purls && ParseOnline(p).None?)
      <==>
      (&& (exists p :: p in purls && ParseOnline(p).None?) && (exists p :: p in purls && ParseOnline(p).Some?)
       && Answered(purls, ask)
       && NoFirstBarred(DocumentReport(purls, ask).findings, requireClean, threshold))
  {
    DocumentGateIff(purls, ask, requireClean, threshold);
  }

  /** With a service that judges packages one by one, the findings are exactly what it lists for those queried. */
  lemma DocumentFindingsExact(purls: seq<string>, ask: (nat, seq<Package>) -> Response<seq<Advisory>>,
                              service: Package -> seq<Advisory>, f: Finding)
    requires Answers(ask, service)
    ensures f in DocumentReport(purls, ask).findings <==>
            (exists p :: p in purls && ParseOnline(p) == Some(f.package)) && f.advisory in service(f.package)
  {
    var queries := QueriesOf(purls);
    assert Answered(purls, ask);
    FirstProblemNone(queries, ask, ChunkCount(|queries|));
    if Readable(purls) {
      CollectedLength(queries, ask, ChunkCount(|queries|));
      CollectedAligned(queries, ask, ChunkCount(|queries|));
      SbomFindingsExact(purls, ask, service, AnswersTo(purls, ask), f);
    } else {
      ReadableIff(purls);
    }
  }

  /** Two findings are one exactly when package name and advisory id are the same. */
  lemma TwoFindings(f: Finding, g: Finding)
    ensures FirstSeen([f, g]) ==
            if f.package.name == g.package.name && f.advisory.id == g.advisory.id then [f] else [f, g]
  {
    assert [f][..0] == [] && FirstSeen([]) == [] && !HasKey([], f);
    assert FirstSeen([f]) == [f];
    assert [f, g][..1] == [f] && [f, g][1] == g;
    assert HasKey([f], g) <==> SameKey(f, g);
  }

  /** A document that is not answered is reported as invalid, or as its first failing chunk was. */
  lemma DocumentStatus(purls: seq<string>, ask: (nat, seq<Package>) -> Response<seq<Advisory>>, k: nat,
                       failure: Option<ScanStatus>)
    ensures !Readable(purls) ==> OverallStatus([DocumentReport(purls, ask)]) == InvalidInput
    ensures Readable(purls) && FirstFailure(QueriesOf(purls), ask, k, failure) ==>
              OverallStatus([DocumentReport(purls, ask)]) == failure.value
  {
    var report := DocumentReport(purls, ask);
    assert report in [report];
    if Readable(purls) && FirstFailure(QueriesOf(purls), ask, k, failure) {
      var queries := QueriesOf(purls);
      FirstFailureIsProblem(queries, ask, k, failure, ChunkCount(|queries|));
      FailureIff(ask(k, Chunk(queries, k)), |Chunk(queries, k)|);
    }
  }
}
