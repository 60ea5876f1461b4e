/**
 The offline scan: from the components' package URLs through deduplication and lookup to coverage,
 status and the release gate (scripts/scan_vulnerabilities.py:192-264, 623-747).
 */
module OfflineScan {
  import opened Common
  import opened Purl
  import opened VulnerabilityScan
  import opened ScanGate

  /** An advisory of the snapshot; `ranges` stands for its affected version ranges. */
  datatype Indexed = Indexed(advisory: Advisory, ranges: string)

  /** The snapshot by lower-case package name, and its abstract test whether a version is affected. */
  datatype Snapshot = Snapshot(packages: map<string, seq<Indexed>>, affects: (string, string) -> bool)

  predicate IsBlank(c: char) { c == ' ' || c == '\t' || c == '\n' || c == '\r' }

  function StripLeft(s: string): string {
    if s != "" && IsBlank(s[0]) then StripLeft(s[1..]) else s
  }

  function StripRight(s: string): string {
    if s != "" && IsBlank(s[|s| - 1]) then StripRight(s[..|s| - 1]) else s
  }

  /** Python's `str.strip` for the usual blanks. */
  function Strip(s: string): string { StripRight(StripLeft(s)) }

  /** Only blanks. */
  predicate AllBlank(s: string) {
    forall i | 0 <= i < |s| :: s[i] == ' ' || s[i] == '\t' || s[i] == '\n' || s[i] == '\r'
  }

  lemma {:induction false} StripLeftFacts(s: string) returns (l: string)
    ensures s == l + StripLeft(s) && AllBlank(l)
    ensures StripLeft(s) == "" || !IsBlank(StripLeft(s)[0])
  {
    l := [];
    if s != "" && IsBlank(s[0]) {
      var rest := StripLeftFacts(s[1..]);
      l := [s[0]] + rest;
      assert s == [s[0]] + s[1..];
    }
  }

  lemma {:induction false} StripRightFacts(s: string) returns (r: string)
    ensures s == StripRight(s) + r && AllBlank(r)
    ensures StripRight(s) == "" || !IsBlank(StripRight(s)[|StripRight(s)| - 1])
  {
    r := [];
    var n := |s| - 1;
    if s != "" && IsBlank(s[n]) {
      var rest := StripRightFacts(s[..n]);
      r := rest + [s[n]];
      assert s == s[..n] + [s[n]];
    }
  }

  /** Stripping takes blanks off both ends and leaves none there. */
  lemma StripFacts(s: string) returns (l: string, r: string)
    ensures s == l + Strip(s) + r && AllBlank(l) && AllBlank(r)
    ensures Strip(s) == "" || (!AllBlank([Strip(s)[0]]) && !AllBlank([Strip(s)[|Strip(s)| - 1]]))
  {
    l := StripLeftFacts(s);
    r := StripRightFacts(StripLeft(s));
    assert Strip(s) == "" || Strip(s)[0] == StripLeft(s)[0];
    assert forall c :: AllBlank([c]) <==> IsBlank(c) by {
      forall c ensures AllBlank([c]) <==> IsBlank(c) {
        assert [c][0] == c;
      }
    }
  }

  /** The name under which a package is looked up. */
  function IndexKey(p: Package): string { Lower(Strip(p.name)) }

  /** Advisories of the snapshot that affect the package; none when it is not indexed. */
  function Matches(db: Snapshot, p: Package): seq<Advisory> {
    if IndexKey(p) in db.packages then Affecting(db, db.packages[IndexKey(p)], Strip(p.version)) else []
  }

  function Affecting(db: Snapshot, entries: seq<Indexed>, version: string): seq<Advisory> {
    if entries == [] then []
    else Affecting(db, entries[..|entries| - 1], version)
         + if db.affects(version, entries[|entries| - 1].ranges) then [entries[|entries| - 1].advisory] else []
  }

  lemma {:induction false} AffectingMember(db: Snapshot, entries: seq<Indexed>, version: string, a: Advisory)
    ensures a in Affecting(db, entries, version) <==>
            exists e :: e in entries && e.advisory == a && db.affects(version, e.ranges)
  {
    if entries != [] {
      var init, last := entries[..|entries| - 1], entries[|entries| - 1];
      AffectingMember(db, init, version, a);
      assert entries == init + [last];
      assert forall e :: e in entries <==> e in init || e == last;
    }
  }

  /** An entry of the snapshot hits the package: it is filed under its name and affects its version. */
  predicate Hits(db: Snapshot, p: Package, e: Indexed) {
    var name := Lower(Strip(p.name));
    name in db.packages && e in db.packages[name] && db.affects(Strip(p.version), e.ranges)
  }

  /** The advisories that match a package are exactly those of the entries that hit it. */
  lemma MatchesIff(db: Snapshot, p: Package, a: Advisory)
    ensures a in Matches(db, p) <==> exists e :: Hits(db, p, e) && e.advisory == a
  {
    if IndexKey(p) in db.packages {
      AffectingMember(db, db.packages[IndexKey(p)], Strip(p.version), a);
    }
  }

  lemma NoMatchesIff(db: Snapshot, p: Package)
    ensures Matches(db, p) == [] <==> forall e :: !Hits(db, p, e)
  {
    if Matches(db, p) != [] {
      MatchesIff(db, p, Matches(db, p)[0]);
    }
    forall e | Hits(db, p, e) ensures Matches(db, p) != [] {
      MatchesIff(db, p, e.advisory);
    }
  }

  datatype Report = Report(findings: seq<Finding>, covered: seq<string>, uncovered: seq<string>)

  /** A package as findings name it. */
  function Reported(p: Package): Package {
    Package(p.ecosystem, Strip(p.name), Strip(p.version))
  }

  function ReportOn(db: Snapshot, ps: seq<Package>): Report {
    if ps == [] then Report([], [], [])
    else
      var r, p := ReportOn(db, ps[..|ps| - 1]), ps[|ps| - 1];
      if IndexKey(p) in db.packages then
        Report(r.findings + Tagged(p, Matches(db, p)), r.covered + [Strip(p.name)], r.uncovered)
      else r.(uncovered := r.uncovered + [Strip(p.name)])
  }

  function Tagged(p: Package, advisories: seq<Advisory>): (r: seq<Finding>)
    ensures |r| == |advisories|
  {
    seq(|advisories|, i requires 0 <= i < |advisories| => Finding(Reported(p), advisories[i]))
  }

  method CheckPackages(db: Snapshot, ps: seq<Package>) returns (report: Report)
    ensures report == ReportOn(db, ps)
  {
    report := Report([], [], []);
    for i := 0 to |ps|
      invariant report == ReportOn(db, ps[..i])
    {
      assert ps[..i + 1][..i] == ps[..i];
      var p := ps[i];
      if IndexKey(p) in db.packages {
        var entries := db.packages[IndexKey(p)];
        var matched: seq<Advisory> := [];
        for j := 0 to |entries|
          invariant matched == Affecting(db, entries[..j], Strip(p.version))
        {
          assert entries[..j + 1][..j] == entries[..j];
          if db.affects(Strip(p.version), entries[j].ranges) {
            matched := matched + [entries[j].advisory];
          }
        }
        assert entries[..|entries|] == entries;
        report := Report(report.findings + Tagged(p, matched), report.covered + [Strip(p.name)], report.uncovered);
      } else {
        report := report.(uncovered := report.uncovered + [Strip(p.name)]);
      }
    }
    assert ps[..|ps|] == ps;
  }

  // ----- Deduplication -----

  /** Two mentions of a package are the same query: names and ecosystems compare without case. */
  predicate SameQuery(p: Package, q: Package) {
    Lower(p.name) == Lower(q.name) && p.version == q.version && Lower(p.ecosystem) == Lower(q.ecosystem)
  }

  function Unique(ps: seq<Package>): seq<Package> {
    if ps == [] then []
    else
      var init, last := Unique(ps[..|ps| - 1]), ps[|ps| - 1];
      if exists q :: q in init && SameQuery(q, last) then init else init + [last]
  }

  method Deduplicate(ps: seq<Package>) returns (unique: seq<Package>)
    ensures unique == Unique(ps)
  {
    unique := [];
    var seen: set<(string, string, string)> := {};
    for i := 0 to |ps|
      invariant unique == Unique(ps[..i])
      invariant seen == set q | q in unique :: (Lower(q.name), q.version, Lower(q.ecosystem))
    {
      assert ps[..i + 1][..i] == ps[..i];
      var p := ps[i];
      var key := (Lower(p.name), p.version, Lower(p.ecosystem));
      assert key in seen <==> exists q :: q in unique && SameQuery(q, p);
      if key !in seen {
        seen := seen + {key};
        unique := unique + [p];
      }
    }
    assert ps[..|ps|] == ps;
  }

  lemma LowerIdempotentOnBlanks(c: char)
    ensures IsBlank(LowerChar(c)) <==> IsBlank(c)
  {
  }

  lemma {:induction false} LowerStripLeft(a: string, b: string)
    requires Lower(a) == Lower(b)
    ensures Lower(StripLeft(a)) == Lower(StripLeft(b))
  {
    assert |a| == |Lower(a)| == |b|;
    if a != "" {
      assert LowerChar(a[0]) == Lower(a)[0] == Lower(b)[0] == LowerChar(b[0]);
      LowerIdempotentOnBlanks(a[0]);
      LowerIdempotentOnBlanks(b[0]);
      assert Lower(a[1..]) == Lower(a)[1..] && Lower(b[1..]) == Lower(b)[1..];
      LowerStripLeft(a[1..], b[1..]);
    }
  }

  lemma {:induction false} LowerStripRight(a: string, b: string)
    requires Lower(a) == Lower(b)
    ensures Lower(StripRight(a)) == Lower(StripRight(b))
  {
    assert |a| == |Lower(a)| == |b|;
    if a != "" {
      var n := |a| - 1;
      assert LowerChar(a[n]) == Lower(a)[n] == Lower(b)[n] == LowerChar(b[n]);
      LowerIdempotentOnBlanks(a[n]);
      LowerIdempotentOnBlanks(b[n]);
      assert Lower(a[..n]) == Lower(a)[..n] && Lower(b[..n]) == Lower(b)[..n];
      LowerStripRight(a[..n], b[..n]);
    }
  }

  /** Mentions of the same query get the same lookup and the same advisories. */
  lemma SameQuerySameMatches(db: Snapshot, p: Package, q: Package)
    requires SameQuery(p, q)
    ensures IndexKey(p) == IndexKey(q) && Matches(db, p) == Matches(db, q)
  {
    LowerStripLeft(p.name, q.name);
    LowerStripRight(StripLeft(p.name), StripLeft(q.name));
  }

  lemma {:induction false} UniqueCovers(ps: seq<Package>, p: Package)
    ensures p in Unique(ps) ==> p in ps
    ensures p in ps ==> exists q :: q in Unique(ps) && SameQuery(q, p)
  {
    if ps != [] {
      var init, last := ps[..|ps| - 1], ps[|ps| - 1];
      assert ps == init + [last];
      UniqueCovers(init, p);
      assert forall q | q in Unique(init) :: q in Unique(ps);
      if p == last {
        assert SameQuery(last, last);
      }
    }
  }

  /** No query is made twice. */
  lemma {:induction false} UniqueDistinct(ps: seq<Package>, i: nat, j: nat)
    requires i < j < |Unique(ps)|
    ensures !SameQuery(Unique(ps)[i], Unique(ps)[j])
  {
    var init := Unique(ps[..|ps| - 1]);
    if j < |init| {
      UniqueDistinct(ps[..|ps| - 1], i, j);
    } else {
      assert init[i] in init;
    }
  }

  /** Every package of the list is indexed. */
  predicate AllIndexed(db: Snapshot, ps: seq<Package>) {
    forall p | p in ps :: IndexKey(p) in db.packages
  }

  /** No package of the list is matched by an advisory. */
  predicate NoMatches(db: Snapshot, ps: seq<Package>) {
    forall p | p in ps :: Matches(db, p) == []
  }

  lemma Representative(db: Snapshot, ps: seq<Package>, p: Package) returns (q: Package)
    requires p in ps
    ensures q in Unique(ps) && IndexKey(q) == IndexKey(p) && Matches(db, q) == Matches(db, p)
  {
    UniqueCovers(ps, p);
    q :| q in Unique(ps) && SameQuery(q, p);
    SameQuerySameMatches(db, q, p);
  }

  /** Deduplication loses neither an unindexed package nor an advisory. */
  lemma UniqueRepresents(db: Snapshot, ps: seq<Package>)
    ensures AllIndexed(db, Unique(ps)) <==> AllIndexed(db, ps)
    ensures NoMatches(db, Unique(ps)) <==> NoMatches(db, ps)
  {
    forall p | p in Unique(ps) ensures p in ps {
      UniqueCovers(ps, p);
    }
    forall p | p in ps
      ensures AllIndexed(db, Unique(ps)) ==> IndexKey(p) in db.packages
      ensures NoMatches(db, Unique(ps)) ==> Matches(db, p) == []
    {
      var q := Representative(db, ps, p);
    }
  }

  // ----- Status -----

  /** `round(x, 2)`: a multiple of one hundredth at most half a hundredth away. */
  ghost predicate RoundsToHundredths(round2: real -> real) {
    forall x: real :: -0.005 <= round2(x) - x <= 0.005 && (round2(x) * 100.0).Floor as real == round2(x) * 100.0
  }

  function CoveragePercent(covered: nat, total: nat, round2: real -> real): real {
    if total > 0 then round2((covered as real / total as real) * 100.0) else 100.0
  }

  function OfflineStatus(invalidInputs: nat, report: Report, coverage: real): ScanStatus {
    if invalidInputs > 0 then InvalidInput
    else if |report.uncovered| > 0 || coverage < 100.0 then Incomplete
    else if report.findings != [] then Vulnerable
    else Clean
  }

  /** The packages read off the components' package URLs, in order; what cannot be read is passed over. */
  function MentionsOf(purls: seq<string>): seq<Package> {
    if purls == [] then []
    else
      var q := ParseOffline(purls[|purls| - 1]);
      MentionsOf(purls[..|purls| - 1]) + if q.Some? then [q.value] else []
  }

  /** What is looked up: the SBOM's packages and those of the lock files. */
  function Mentioned(purls: seq<string>, locked: seq<Package>): seq<Package> {
    MentionsOf(purls) + locked
  }

  /** The loop over the SBOM's components. */
  method ReadMentions(purls: seq<string>) returns (mentions: seq<Package>)
    ensures mentions == MentionsOf(purls)
  {
    mentions := [];
    for i := 0 to |purls|
      invariant mentions == MentionsOf(purls[..i])
    {
      assert purls[..i + 1][..i] == purls[..i];
      var q := ParseOffline(purls[i]);
      if q.Some? {
        mentions := mentions + [q.value];
      }
    }
    assert purls[..|purls|] == purls;
  }

  /** `scan_offline` on the package URLs of the SBOM's components and the packages of the lock files. */
  method ScanOffline(db: Snapshot, purls: seq<string>, locked: seq<Package>, invalidInputs: nat, round2: real -> real)
    returns (status: ScanStatus, report: Report, coverage: real)
    ensures (status, report, coverage) == Outcome(db, Mentioned(purls, locked), invalidInputs, round2)
  {
    var mentions := ReadMentions(purls);
    var unique := Deduplicate(mentions + locked);
    report := CheckPackages(db, unique);
    coverage := if |unique| > 0 then round2((|report.covered| as real / |unique| as real) * 100.0) else 100.0;
    if invalidInputs > 0 {
      status := InvalidInput;
    } else if |report.uncovered| > 0 || coverage < 100.0 {
      status := Incomplete;
    } else if report.findings != [] {
      status := Vulnerable;
    } else {
      status := Clean;
    }
  }

  /** Status, report and coverage of a scan that looked up these packages. */
  function Outcome(db: Snapshot, mentions: seq<Package>, invalidInputs: nat, round2: real -> real)
    : (ScanStatus, Report, real)
  {
    var report := ReportOn(db, Unique(mentions));
    var coverage := CoveragePercent(|report.covered|, |Unique(mentions)|, round2);
    (OfflineStatus(invalidInputs, report, coverage), report, coverage)
  }

  lemma {:induction false} ReportCovers(db: Snapshot, ps: seq<Package>)
    ensures |ReportOn(db, ps).covered| + |ReportOn(db, ps).uncovered| == |ps|
    ensures ReportOn(db, ps).uncovered == [] <==> AllIndexed(db, ps)
  {
    if ps != [] {
      var init, last := ps[..|ps| - 1], ps[|ps| - 1];
      ReportCovers(db, init);
      assert ps == init + [last];
      assert AllIndexed(db, ps) <==> AllIndexed(db, init) && IndexKey(last) in db.packages;
    }
  }

  /** Covered are exactly the names that are indexed, uncovered those that are not. */
  lemma {:induction false} ReportNames(db: Snapshot, ps: seq<Package>, name: string)
    ensures name in ReportOn(db, ps).covered <==>
            exists p :: p in ps && Strip(p.name) == name && Lower(name) in db.packages
    ensures name in ReportOn(db, ps).uncovered <==>
            exists p :: p in ps && Strip(p.name) == name && Lower(name) !in db.packages
  {
    if ps != [] {
      var init, last := ps[..|ps| - 1], ps[|ps| - 1];
      ReportNames(db, init, name);
      assert ps == init + [last];
      assert forall p :: p in ps <==> p in init || p == last;
    }
  }

  lemma {:induction false} ReportFinds(db: Snapshot, ps: seq<Package>)
    ensures ReportOn(db, ps).findings == [] <==> NoMatches(db, ps)
  {
    if ps != [] {
      var init, last := ps[..|ps| - 1], ps[|ps| - 1];
      ReportFinds(db, init);
      assert ps == init + [last];
      assert NoMatches(db, ps) <==> NoMatches(db, init) && Matches(db, last) == [];
    }
  }

  lemma ReportFacts(db: Snapshot, ps: seq<Package>)
    ensures |ReportOn(db, ps).covered| + |ReportOn(db, ps).uncovered| == |ps|
    ensures ReportOn(db, ps).uncovered == [] <==> AllIndexed(db, ps)
    ensures ReportOn(db, ps).findings == [] <==> NoMatches(db, ps)
  {
    ReportCovers(db, ps);
    ReportFinds(db, ps);
  }

  lemma SelfRatio(t: real)
    requires t > 0.0
    ensures t / t == 1.0
  {
  }

  /** Full coverage always reads as 100 percent. */
  lemma FullCoverageReadsFull(total: nat, round2: real -> real)
    requires RoundsToHundredths(round2)
    ensures CoveragePercent(total, total, round2) == 100.0
  {
    if total > 0 {
      SelfRatio(total as real);
      var x := (total as real / total as real) * 100.0;
      assert x == 1.0 * 100.0;
      var n := (round2(x) * 100.0).Floor;
      assert 9999.5 <= n as real <= 10000.5;
    }
  }

  /** The status follows from coverage and findings alone; the rounded percentage never decides. */
  lemma StatusOf(db: Snapshot, mentions: seq<Package>, invalidInputs: nat, round2: real -> real)
    requires RoundsToHundredths(round2)
    ensures Outcome(db, mentions, invalidInputs, round2).0 ==
            if invalidInputs > 0 then InvalidInput
            else if !AllIndexed(db, mentions) then Incomplete
            else if !NoMatches(db, mentions) then Vulnerable
            else Clean
  {
    var report := ReportOn(db, Unique(mentions));
    ReportFacts(db, Unique(mentions));
    UniqueRepresents(db, mentions);
    if report.uncovered == [] {
      FullCoverageReadsFull(|Unique(mentions)|, round2);
    }
  }

  // ----- What the rounded percentage shows -----

  lemma SignOfProduct(a: real, t: real)
    requires t > 0.0
    ensures (a > 0.0 <==> a * t > 0.0) && (a == 0.0 <==> a * t == 0.0)
  {
  }

  /** The unrounded percentage with some packages missing. */
  lemma CoverageGap(total: nat, missing: nat)
    requires missing <= total && total > 0
    ensures
      var x := ((total - missing) as real / total as real) * 100.0;
      && (x > 99.995 <==> missing * 20000 < total)
      && (x == 99.995 <==> missing * 20000 == total)
      && 0.0 <= x <= 100.0
  {
    var t, m := total as real, missing as real;
    var x := ((total - missing) as real / t) * 100.0;
    assert x * t == 100.0 * (t - m);
    assert (x - 99.995) * t == 0.005 * t - 100.0 * m;
    assert (missing * 20000) as real == 20000.0 * m;
    SignOfProduct(x - 99.995, t);
    SignOfProduct(100.0 - x, t);
    SignOfProduct(x, t);
  }

  /**
   With `missing` packages not indexed the percentage still reads 100 when they are fewer than one
   in 20000, and less when they are more; at exactly one in 20000 it is a tie between 99.99 and 100.
   */
  lemma RoundedCoverageHidesGap(total: nat, missing: nat, round2: real -> real)
    requires RoundsToHundredths(round2) && missing <= total && total > 0
    ensures
      var shown := CoveragePercent(total - missing, total, round2);
      && (missing * 20000 < total ==> shown == 100.0)
      && (missing * 20000 > total ==> shown < 100.0)
      && (missing * 20000 == total ==> shown == 99.99 || shown == 100.0)
  {
    var x := ((total - missing) as real / total as real) * 100.0;
    CoverageGap(total, missing);
    assert -0.005 <= round2(x) - x <= 0.005;
    var n := (round2(x) * 100.0).Floor;
    assert n as real == round2(x) * 100.0;
    if missing * 20000 < total {
      assert 9999.0 < n as real <= 10000.5;
    } else if missing * 20000 == total {
      assert 9999.0 <= n as real <= 10000.0;
    }
  }

  // ----- Findings and the gate -----

  lemma {:induction false} ReportFindings(db: Snapshot, ps: seq<Package>, f: Finding)
    ensures f in ReportOn(db, ps).findings <==>
            exists p :: p in ps && f.package == Reported(p) && f.advisory in Matches(db, p)
  {
    if ps != [] {
      var init, last := ps[..|ps| - 1], ps[|ps| - 1];
      ReportFindings(db, init, f);
      assert ps == init + [last];
      assert forall p :: p in ps <==> p in init || p == last;
      TaggedMember(last, Matches(db, last), f);
    }
  }

  lemma TaggedMember(p: Package, advisories: seq<Advisory>, f: Finding)
    ensures f in Tagged(p, advisories) <==> f.package == Reported(p) && f.advisory in advisories
  {
    if f.package == Reported(p) && f.advisory in advisories {
      var i :| 0 <= i < |advisories| && advisories[i] == f.advisory;
      assert Tagged(p, advisories)[i] == f;
    }
  }

  /** The package is indexed, and no entry that hits it carries an advisory barred by the gate's settings. */
  ghost predicate Acceptable(db: Snapshot, p: Package, requireClean: bool, threshold: Threshold) {
    && Lower(Strip(p.name)) in db.packages
    && forall e | Hits(db, p, e) :: !Barred(Finding(Reported(p), e.advisory), requireClean, threshold)
  }

  lemma AcceptableIff(db: Snapshot, p: Package, requireClean: bool, threshold: Threshold)
    ensures Acceptable(db, p, requireClean, threshold) <==>
            IndexKey(p) in db.packages && Tolerated(db, p, requireClean, threshold)
  {
    forall a: Advisory
      ensures a in Matches(db, p) <==> exists e :: Hits(db, p, e) && e.advisory == a
    {
      MatchesIff(db, p, a);
    }
  }

  predicate Tolerated(db: Snapshot, p: Package, requireClean: bool, threshold: Threshold) {
    forall a | a in Matches(db, p) :: !Barred(Finding(Reported(p), a), requireClean, threshold)
  }

  lemma FindingsTolerated(db: Snapshot, ps: seq<Package>, requireClean: bool, threshold: Threshold)
    ensures (forall f | f in ReportOn(db, ps).findings :: !Barred(f, requireClean, threshold)) <==>
            (forall p | p in ps :: Tolerated(db, p, requireClean, threshold))
  {
    var findings := ReportOn(db, ps).findings;
    if forall p | p in ps :: Tolerated(db, p, requireClean, threshold) {
      forall f | f in findings ensures !Barred(f, requireClean, threshold) {
        ReportFindings(db, ps, f);
        var p :| p in ps && f.package == Reported(p) && f.advisory in Matches(db, p);
        assert f == Finding(Reported(p), f.advisory);
      }
    }
    forall p, a | p in ps && a in Matches(db, p)
      ensures (forall f | f in findings :: !Barred(f, requireClean, threshold))
              ==> !Barred(Finding(Reported(p), a), requireClean, threshold)
    {
      ReportFindings(db, ps, Finding(Reported(p), a));
    }
  }

  /** Deduplication does not change what is tolerated. */
  lemma UniqueTolerated(db: Snapshot, ps: seq<Package>, requireClean: bool, threshold: Threshold)
    ensures (forall p | p in Unique(ps) :: Tolerated(db, p, requireClean, threshold)) <==>
            (forall p | p in ps :: Tolerated(db, p, requireClean, threshold))
  {
    forall p | p in Unique(ps) ensures p in ps {
      UniqueCovers(ps, p);
    }
    forall p | p in ps
      ensures (forall q | q in Unique(ps) :: Tolerated(db, q, requireClean, threshold))
              ==> Tolerated(db, p, requireClean, threshold)
    {
      var q := Representative(db, ps, p);
      if Tolerated(db, q, requireClean, threshold) {
        forall a | a in Matches(db, p) ensures !Barred(Finding(Reported(p), a), requireClean, threshold) {
          assert a in Matches(db, q) && !Barred(Finding(Reported(q), a), requireClean, threshold);
        }
      }
    }
  }

  /** The gate after a scan that looked up these packages. */
  lemma MentionsGateIff(db: Snapshot, mentions: seq<Package>, invalidInputs: nat, round2: real -> real,
                        requireClean: bool, threshold: Threshold)
    requires RoundsToHundredths(round2)
    ensures
      var (status, report, _) := Outcome(db, mentions, invalidInputs, round2);
      GatePasses(status, report.findings, requireClean, threshold) <==>
      invalidInputs == 0 && forall p | p in mentions :: Acceptable(db, p, requireClean, threshold)
  {
    StatusOf(db, mentions, invalidInputs, round2);
    ReportFacts(db, Unique(mentions));
    UniqueRepresents(db, mentions);
    UniqueTolerated(db, mentions, requireClean, threshold);
    forall p | p in mentions
      ensures Acceptable(db, p, requireClean, threshold) <==>
              IndexKey(p) in db.packages && Tolerated(db, p, requireClean, threshold)
    {
      AcceptableIff(db, p, requireClean, threshold);
    }
    FindingsTolerated(db, Unique(mentions), requireClean, threshold);
    GateIff(ReportOn(db, Unique(mentions)).findings, requireClean, threshold);
  }

  // ----- From the document to status and gate -----

  lemma {:induction false} MentionsMember(purls: seq<string>, q: Package)
    ensures q in MentionsOf(purls) <==> exists p :: p in purls && ParseOffline(p) == Some(q)
  {
    if purls != [] {
      var init, last := purls[..|purls| - 1], purls[|purls| - 1];
      assert purls == init + [last];
      MentionsMember(init, q);
      assert forall p :: p in purls <==> p in init || p == last;
    }
  }

  /** The package is indexed and no entry of the snapshot hits it. */
  ghost predicate Spotless(db: Snapshot, p: Package) {
    Lower(Strip(p.name)) in db.packages && forall e :: !Hits(db, p, e)
  }

  /** If the component's package URL can be read at all, its package is spotless. */
  ghost predicate SpotlessIfRead(db: Snapshot, purl: string) {
    ParseOffline(purl).Some? ==> Spotless(db, ParseOffline(purl).value)
  }

  ghost predicate AcceptableIfRead(db: Snapshot, purl: string, requireClean: bool, threshold: Threshold) {
    ParseOffline(purl).Some? ==> Acceptable(db, ParseOffline(purl).value, requireClean, threshold)
  }

  /**
   An offline scan is CLEAN exactly when no input was invalid, every component whose package URL
   can be read is indexed and matched by no advisory, and so is every locked package.
   */
  lemma OfflineCleanIff(db: Snapshot, purls: seq<string>, locked: seq<Package>, invalidInputs: nat,
                        round2: real -> real)
    requires RoundsToHundredths(round2)
    ensures Outcome(db, Mentioned(purls, locked), invalidInputs, round2).0 == Clean <==>
            && invalidInputs == 0
            && (forall p | p in purls :: SpotlessIfRead(db, p)) && (forall q | q in locked :: Spotless(db, q))
  {
    var mentions := Mentioned(purls, locked);
    StatusOf(db, mentions, invalidInputs, round2);
    forall p: Package ensures Matches(db, p) == [] <==> forall e :: !Hits(db, p, e) {
      NoMatchesIff(db, p);
    }
    forall q: Package ensures q in mentions <==> q in locked || exists p :: p in purls && ParseOffline(p) == Some(q) {
      MentionsMember(purls, q);
    }
    if AllIndexed(db, mentions) && NoMatches(db, mentions) {
      forall p | p in purls ensures SpotlessIfRead(db, p) {
        assert ParseOffline(p).Some? ==> ParseOffline(p).value in mentions;
      }
    }
  }

  /** The gate opens exactly when, in the same way, every package that was read is acceptable to its settings. */
  lemma OfflineGateIff(db: Snapshot, purls: seq<string>, locked: seq<Package>, invalidInputs: nat,
                       round2: real -> real, requireClean: bool, threshold: Threshold)
    requires RoundsToHundredths(round2)
    ensures
      var (status, report, _) := Outcome(db, Mentioned(purls, locked), invalidInputs, round2);
      GatePasses(status, report.findings, requireClean, threshold) <==>
      && invalidInputs == 0
      && (forall p | p in purls :: AcceptableIfRead(db, p, requireClean, threshold))
      && (forall q | q in locked :: Acceptable(db, q, requireClean, threshold))
  {
    var mentions := Mentioned(purls, locked);
    MentionsGateIff(db, mentions, invalidInputs, round2, requireClean, threshold);
    forall q: Package ensures q in mentions <==> q in locked || exists p :: p in purls && ParseOffline(p) == Some(q) {
      MentionsMember(purls, q);
    }
    if forall q | q in mentions :: Acceptable(db, q, requireClean, threshold) {
      forall p | p in purls ensures AcceptableIfRead(db, p, requireClean, threshold) {
        assert ParseOffline(p).Some? ==> ParseOffline(p).value in mentions;
      }
    }
  }

  // ----- Components that are passed over -----

  /** A package URL cannot be read exactly when it lacks the scheme or has nothing but an ecosystem after it. */
  lemma UnreadableIff(purl: string)
    ensures ParseOffline(purl).None? <==> !("pkg:" <= purl) || '/' !in DropMarks(purl)
  {
    SplitFirstParts(DropMarks(purl), '/');
  }

  /** The component's package was found in the snapshot. */
  predicate LookedUp(db: Snapshot, purl: string) {
    ParseOffline(purl).Some? && IndexKey(ParseOffline(purl).value) in db.packages
  }

  /**
   A scan is CLEAN without every component having been looked up exactly when one cannot be read
   and everything else is spotless.
   */
  lemma CleanWithoutLookupIff(db: Snapshot, purls: seq<string>, locked: seq<Package>, invalidInputs: nat,
                              round2: real -> real)
    requires RoundsToHundredths(round2)
    ensures
      (Outcome(db, Mentioned(purls, locked), invalidInputs, round2).0 == Clean
       && exists p :: p in purls && !LookedUp(db, p))
      <==>
      (&& invalidInputs == 0
       && (forall p | p in purls :: SpotlessIfRead(db, p)) && (forall q | q in locked :: Spotless(db, q))
       && exists p :: p in purls && ParseOffline(p).None?)
  {
    OfflineCleanIff(db, purls, locked, invalidInputs, round2);
    if p :| p in purls && ParseOffline(p).None? {
      assert !LookedUp(db, p);
    }
  }

  /**
   A document none of whose components can be read is CLEAN and passes the gate under every
   setting, whereas the online scan refuses it.
   */
  lemma UnreadableDocumentPasses(db: Snapshot, purls: seq<string>, round2: real -> real, requireClean: bool,
                                 threshold: Threshold)
    requires RoundsToHundredths(round2) && purls != [] && forall p | p in purls :: ParseOffline(p).None?
    ensures
      var (status, report, _) := Outcome(db, Mentioned(purls, []), 0, round2);
      status == Clean && GatePasses(status, report.findings, requireClean, threshold)
    ensures !Readable(purls)
  {
    OfflineCleanIff(db, purls, [], 0, round2);
    OfflineGateIff(db, purls, [], 0, round2, requireClean, threshold);
    forall p | p in purls ensures ParseOnline(p).None? {
      assert ParseOffline(p).None?;
    }
    if QueriesOf(purls) != [] {
      QueriesMember(purls, QueriesOf(purls)[0]);
    }
  }

  /** Two mentions are one query exactly when they have the same version, and name and ecosystem but for case. */
  lemma TwoMentions(p: Package, q: Package)
    ensures Unique([p, q]) ==
            if p.version == q.version && Lower(p.name) == Lower(q.name) && Lower(p.ecosystem) == Lower(q.ecosystem)
            then [p] else [p, q]
  {
    assert [p][..0] == [] && Unique([]) == [];
    assert Unique([p]) == [p];
    assert [p, q][..1] == [p] && [p, q][1] == q;
    assert (exists r :: r in [p] && SameQuery(r, q)) <==> SameQuery(p, q);
  }
}
