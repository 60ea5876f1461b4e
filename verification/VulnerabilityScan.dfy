/**
 The chunked batch query and the online scan of an SBOM (scripts/scan_vulnerabilities.py:286-467),
 with the scan statuses that all scans share.
 */
module VulnerabilityScan {
  import opened Common
  import opened Purl

  datatype ScanStatus = Clean | Vulnerable | ScanError | ScanUnavailable | InvalidInput | Incomplete

  // ----- The batch query -----

  const CHUNK: nat := 50

  /** What one HTTP exchange can come to. */
  datatype Response<R> =
    | Answer(results: seq<R>)
    | Unparseable | BadSchema | TimedOut | HttpFailure(code: int) | Unreachable | UnexpectedError

  function ChunkCount(n: nat): nat { (n + CHUNK - 1) / CHUNK }

  /** The `k`-th slice of fifty queries, the last one possibly shorter. */
  function Chunk<Q>(queries: seq<Q>, k: nat): seq<Q>
    requires k < ChunkCount(|queries|)
  {
    queries[k * CHUNK..if (k + 1) * CHUNK <= |queries| then (k + 1) * CHUNK else |queries|]
  }

  /** The status an exchange is reported as, unless it answered every query of its chunk. */
  function Failure<R>(response: Response<R>, expected: nat): Option<ScanStatus> {
    match response
    case Answer(results) => if |results| == expected then None else Some(ScanError)
    case Unparseable => Some(ScanError)
    case BadSchema => Some(ScanError)
    case TimedOut => Some(ScanUnavailable)
    case HttpFailure(code) => Some(if 500 <= code <= 599 then ScanUnavailable else ScanError)
    case Unreachable => Some(ScanUnavailable)
    case UnexpectedError => Some(ScanError)
  }

  /** Only a complete answer is a success; only a service that could not be reached is unavailable. */
  lemma FailureIff<R>(response: Response<R>, expected: nat)
    ensures Failure(response, expected) == None <==> response.Answer? && |response.results| == expected
    ensures Failure(response, expected) == Some(ScanUnavailable) <==>
            || response.TimedOut? || response.Unreachable?
            || (response.HttpFailure? && 500 <= response.code < 600)
    ensures Failure(response, expected) in [None, Some(ScanUnavailable), Some(ScanError)]
  {
  }

  /** The first `upTo` chunks, joined. */
  function Joined<Q>(queries: seq<Q>, upTo: nat): seq<Q>
    requires upTo <= ChunkCount(|queries|)
  {
    if upTo == 0 then [] else Joined(queries, upTo - 1) + Chunk(queries, upTo - 1)
  }

  /** The chunks are at most fifty long, none is empty, and joined they are the queries. */
  lemma ChunksCover<Q>(queries: seq<Q>)
    ensures Joined(queries, ChunkCount(|queries|)) == queries
    ensures forall k | 0 <= k < ChunkCount(|queries|) :: 0 < |Chunk(queries, k)| <= 50
  {
    JoinedPrefix(queries, ChunkCount(|queries|));
  }

  lemma {:induction false} JoinedPrefix<Q>(queries: seq<Q>, upTo: nat)
    requires upTo <= ChunkCount(|queries|)
    ensures Joined(queries, upTo) == if upTo * 50 <= |queries| then queries[..upTo * 50] else queries
  {
    if upTo > 0 {
      JoinedPrefix(queries, upTo - 1);
    }
  }

  function ChunkFailure<Q, R>(queries: seq<Q>, ask: (nat, seq<Q>) -> Response<R>, k: nat): Option<ScanStatus>
    requires k < ChunkCount(|queries|)
  {
    Failure(ask(k, Chunk(queries, k)), |Chunk(queries, k)|)
  }

  /** Results line up with queries: each is the answer its own chunk gave at its own position. */
  ghost predicate Aligned<Q, R(!new)>(queries: seq<Q>, ask: (nat, seq<Q>) -> Response<R>, results: seq<R>, upTo: nat)
    requires upTo <= |queries|
  {
    && |results| == upTo
    && forall k: nat, j: nat | k < ChunkCount(|queries|) && j < |Chunk(queries, k)| && k * CHUNK + j < upTo ::
         AlignedAt(queries, ask, results, k, j)
  }

  /** Position `j` of chunk `k` holds the answer given there. */
  ghost predicate AlignedAt<Q, R(!new)>(queries: seq<Q>, ask: (nat, seq<Q>) -> Response<R>, results: seq<R>,
                                        k: nat, j: nat)
    requires k < ChunkCount(|queries|) && k * CHUNK + j < |results|
  {
    var response := ask(k, Chunk(queries, k));
    response.Answer? && j < |response.results| && results[k * CHUNK + j] == response.results[j]
  }

  /** Chunk `k` failed with this status and all chunks before it were answered in full. */
  ghost predicate FirstFailure<Q, R>(queries: seq<Q>, ask: (nat, seq<Q>) -> Response<R>, k: nat,
                                     failure: Option<ScanStatus>)
  {
    && k < ChunkCount(|queries|) && failure.Some? && ChunkFailure(queries, ask, k) == failure
    && forall j | 0 <= j < k :: ChunkFailure(queries, ask, j).None?
  }

  /** The answers to the first `upTo` chunks, one after the other. */
  function Collected<Q, R>(queries: seq<Q>, ask: (nat, seq<Q>) -> Response<R>, upTo: nat): seq<R>
    requires upTo <= ChunkCount(|queries|)
  {
    if upTo == 0 then []
    else
      var response := ask(upTo - 1, Chunk(queries, upTo - 1));
      Collected(queries, ask, upTo - 1) + if response.Answer? then response.results else []
  }

  /**
   All chunks are answered in full and the results, collected in order, line up with the queries, or
   there are no results at all and the status is that of the first chunk that failed.
   */
  method QueryOsvBatch<Q, R(!new)>(queries: seq<Q>, ask: (nat, seq<Q>) -> Response<R>)
    returns (results: Option<seq<R>>, failure: Option<ScanStatus>)
    ensures results.Some? <==> failure.None?
    ensures results.Some? <==> forall k | 0 <= k < ChunkCount(|queries|) :: ChunkFailure(queries, ask, k).None?
    ensures results.Some? ==> Aligned(queries, ask, results.value, |queries|)
    ensures results.Some? ==> results.value == Collected(queries, ask, ChunkCount(|queries|))
    ensures failure.Some? ==> exists k :: FirstFailure(queries, ask, k, failure)
  {
    var all: seq<R> := [];
    var k := 0;
    while k * CHUNK < |queries|
      invariant 0 <= k <= ChunkCount(|queries|)
      invariant forall j | 0 <= j < k :: ChunkFailure(queries, ask, j).None?
      invariant all == Collected(queries, ask, k)
      invariant Aligned(queries, ask, all, if k * CHUNK <= |queries| then k * CHUNK else |queries|)
      decreases |queries| - k * CHUNK
    {
      var chunk := Chunk(queries, k);
      var response := ask(k, chunk);
      var problem := Failure(response, |chunk|);
      assert problem == ChunkFailure(queries, ask, k);
      if problem.Some? {
        assert FirstFailure(queries, ask, k, problem);
        return None, problem;
      }
      AlignedMore(queries, ask, all, k);
      all := all + response.results;
      k := k + 1;
    }
    return Some(all), None;
  }

  lemma AlignedMore<Q, R(!new)>(queries: seq<Q>, ask: (nat, seq<Q>) -> Response<R>, all: seq<R>, k: nat)
    requires k < ChunkCount(|queries|) && k * CHUNK <= |queries| && ChunkFailure(queries, ask, k).None?
    requires Aligned(queries, ask, all, k * CHUNK)
    ensures
      var next := if (k + 1) * CHUNK <= |queries| then (k + 1) * CHUNK else |queries|;
      Aligned(queries, ask, all + ask(k, Chunk(queries, k)).results, next)
  {
    var next := if (k + 1) * CHUNK <= |queries| then (k + 1) * CHUNK else |queries|;
    var more := all + ask(k, Chunk(queries, k)).results;
    forall m: nat, j: nat | m < ChunkCount(|queries|) && j < |Chunk(queries, m)| && m * CHUNK + j < next
      ensures AlignedAt(queries, ask, more, m, j)
    {
      assert |Chunk(queries, m)| <= CHUNK && m <= k;
      if m < k {
        assert m * CHUNK + j < k * CHUNK;
        assert AlignedAt(queries, ask, all, m, j);
      }
    }
  }

  /** Answered chunks leave as many results as there were queries in them. */
  lemma {:induction false} CollectedLength<Q, R>(queries: seq<Q>, ask: (nat, seq<Q>) -> Response<R>, upTo: nat)
    requires upTo <= ChunkCount(|queries|) && forall k | 0 <= k < upTo :: ChunkFailure(queries, ask, k).None?
    ensures |Collected(queries, ask, upTo)| == if upTo * CHUNK <= |queries| then upTo * CHUNK else |queries|
  {
    if upTo > 0 {
      CollectedLength(queries, ask, upTo - 1);
      assert ChunkFailure(queries, ask, upTo - 1).None?;
    }
  }

  lemma {:induction false} CollectedAligned<Q, R(!new)>(queries: seq<Q>, ask: (nat, seq<Q>) -> Response<R>, upTo: nat)
    requires upTo <= ChunkCount(|queries|) && forall k | 0 <= k < upTo :: ChunkFailure(queries, ask, k).None?
    ensures Aligned(queries, ask, Collected(queries, ask, upTo),
                    if upTo * CHUNK <= |queries| then upTo * CHUNK else |queries|)
  {
    if upTo > 0 {
      CollectedAligned(queries, ask, upTo - 1);
      AlignedMore(queries, ask, Collected(queries, ask, upTo - 1), upTo - 1);
    }
  }

  /** The status of the first chunk that failed, if any did. */
  function FirstProblem<Q, R>(queries: seq<Q>, ask: (nat, seq<Q>) -> Response<R>, upTo: nat): Option<ScanStatus>
    requires upTo <= ChunkCount(|queries|)
  {
    if upTo == 0 then None
    else
      var earlier := FirstProblem(queries, ask, upTo - 1);
      if earlier.Some? then earlier else ChunkFailure(queries, ask, upTo - 1)
  }

  lemma {:induction false} FirstProblemNone<Q, R>(queries: seq<Q>, ask: (nat, seq<Q>) -> Response<R>, upTo: nat)
    requires upTo <= ChunkCount(|queries|)
    ensures FirstProblem(queries, ask, upTo).None? <==> forall k | 0 <= k < upTo :: ChunkFailure(queries, ask, k).None?
  {
    if upTo > 0 {
      FirstProblemNone(queries, ask, upTo - 1);
    }
  }

  lemma {:induction false} FirstFailureIsProblem<Q, R>(queries: seq<Q>, ask: (nat, seq<Q>) -> Response<R>, k: nat,
                                                       failure: Option<ScanStatus>, upTo: nat)
    requires FirstFailure(queries, ask, k, failure) && k < upTo <= ChunkCount(|queries|)
    ensures FirstProblem(queries, ask, upTo) == failure
  {
    if k == upTo - 1 {
      FirstProblemNone(queries, ask, k);
    } else {
      FirstFailureIsProblem(queries, ask, k, failure, upTo - 1);
    }
  }

  /** A service that answers every query on its own. */
  ghost predicate Answers<Q(!new), R>(ask: (nat, seq<Q>) -> Response<R>, service: Q -> R) {
    forall k: nat, chunk: seq<Q> ::
      ask(k, chunk) == Answer(seq(|chunk|, i requires 0 <= i < |chunk| => service(chunk[i])))
  }

  lemma AlignedService<Q(!new), R(!new)>(queries: seq<Q>, ask: (nat, seq<Q>) -> Response<R>, service: Q -> R,
                                         results: seq<R>)
    requires Answers(ask, service) && Aligned(queries, ask, results, |queries|)
    ensures |results| == |queries| && forall i | 0 <= i < |queries| :: results[i] == service(queries[i])
  {
    forall i | 0 <= i < |queries| ensures results[i] == service(queries[i]) {
      var k, j := i / CHUNK, i % CHUNK;
      assert k < ChunkCount(|queries|) && j < |Chunk(queries, k)| && Chunk(queries, k)[j] == queries[i];
      assert AlignedAt(queries, ask, results, k, j);
    }
  }

  // ----- Scanning an SBOM online -----

  datatype Advisory = Advisory(id: string, severity: string)

  datatype Finding = Finding(package: Package, advisory: Advisory)

  /** The queries that can be read off the components' package URLs, in order. */
  function QueriesOf(purls: seq<string>): seq<Package> {
    if purls == [] then []
    else
      var q := ParseOnline(purls[|purls| - 1]);
      QueriesOf(purls[..|purls| - 1]) + if q.Some? then [q.value] else []
  }

  lemma {:induction false} QueriesMember(purls: seq<string>, q: Package)
    ensures q in QueriesOf(purls) <==> exists p :: p in purls && ParseOnline(p) == Some(q)
  {
    if purls != [] {
      var init, last := purls[..|purls| - 1], purls[|purls| - 1];
      assert purls == init + [last];
      QueriesMember(init, q);
      assert forall p :: p in purls <==> p in init || p == last;
    }
  }

  /** The advisories of one answer, attributed to the package queried. */
  function Attributed(q: Package, advisories: seq<Advisory>): (r: seq<Finding>)
    ensures |r| == |advisories|
  {
    seq(|advisories|, i requires 0 <= i < |advisories| => Finding(q, advisories[i]))
  }

  /** Attributes the advisories of each answer to the package queried at the same position, in order. */
  function Attribute(queries: seq<Package>, results: seq<seq<Advisory>>, upTo: nat): seq<Finding>
    requires upTo <= |queries| == |results|
  {
    if upTo == 0 then []
    else Attribute(queries, results, upTo - 1) + Attributed(queries[upTo - 1], results[upTo - 1])
  }

  lemma AttributedMember(q: Package, advisories: seq<Advisory>, f: Finding)
    ensures f in Attributed(q, advisories) <==> f.package == q && f.advisory in advisories
  {
    if f.package == q && f.advisory in advisories {
      var i :| 0 <= i < |advisories| && advisories[i] == f.advisory;
      assert Attributed(q, advisories)[i] == f;
    }
  }

  lemma {:induction false} AttributeMember(queries: seq<Package>, results: seq<seq<Advisory>>, upTo: nat, f: Finding)
    requires upTo <= |queries| == |results|
    ensures f in Attribute(queries, results, upTo) <==>
            exists i :: 0 <= i < upTo && f.package == queries[i] && f.advisory in results[i]
  {
    if upTo > 0 {
      AttributeMember(queries, results, upTo - 1, f);
      AttributedMember(queries[upTo - 1], results[upTo - 1], f);
    }
  }

  /** A document that has components must yield at least one query. */
  predicate Readable(purls: seq<string>) {
    purls == [] || QueriesOf(purls) != []
  }

  /** Every chunk of the document's queries is answered in full. */
  ghost predicate Answered(purls: seq<string>, ask: (nat, seq<Package>) -> Response<seq<Advisory>>) {
    forall k | 0 <= k < ChunkCount(|QueriesOf(purls)|) :: ChunkFailure(QueriesOf(purls), ask, k).None?
  }

  /** All answers to the document's queries. */
  function AnswersTo(purls: seq<string>, ask: (nat, seq<Package>) -> Response<seq<Advisory>>): seq<seq<Advisory>> {
    Collected(QueriesOf(purls), ask, ChunkCount(|QueriesOf(purls)|))
  }

  /** `scan_sbom_file` after reading the document: findings in query order, or the status of the failure. */
  method ScanSbom(purls: seq<string>, ask: (nat, seq<Package>) -> Response<seq<Advisory>>)
    returns (findings: seq<Finding>, failure: Option<ScanStatus>)
    ensures failure.None? <==> Readable(purls) && Answered(purls, ask)
    ensures failure.None? ==>
              && Aligned(QueriesOf(purls), ask, AnswersTo(purls, ask), |QueriesOf(purls)|)
              && findings == Attribute(QueriesOf(purls), AnswersTo(purls, ask), |QueriesOf(purls)|)
    ensures failure.Some? ==> findings == []
    ensures failure.Some? ==> if Readable(purls) then exists k :: FirstFailure(QueriesOf(purls), ask, k, failure)
                              else failure == Some(InvalidInput)
  {
    var queries: seq<Package> := [];
    for i := 0 to |purls|
      invariant queries == QueriesOf(purls[..i])
    {
      assert purls[..i + 1][..i] == purls[..i];
      var q := ParseOnline(purls[i]);
      if q.Some? {
        queries := queries + [q.value];
      }
    }
    assert purls[..|purls|] == purls;
    if queries == [] && |purls| > 0 {
      return [], Some(InvalidInput);
    }
    var results;
    results, failure := QueryOsvBatch(queries, ask);
    if failure.Some? {
      return [], failure;
    }
    findings := [];
    for i := 0 to |results.value|
      invariant findings == Attribute(queries, results.value, i)
    {
      findings := findings + Attributed(queries[i], results.value[i]);
    }
  }

  /**
   End to end, with a service that judges each package on its own: an advisory is reported for a
   package exactly when some component's package URL reads as that package and the service lists
   the advisory for it.
   */
  lemma SbomFindingsExact(purls: seq<string>, ask: (nat, seq<Package>) -> Response<seq<Advisory>>,
                          service: Package -> seq<Advisory>, results: seq<seq<Advisory>>, f: Finding)
    requires Answers(ask, service) && Aligned(QueriesOf(purls), ask, results, |QueriesOf(purls)|)
    ensures f in Attribute(QueriesOf(purls), results, |results|) <==>
            (exists p :: p in purls && ParseOnline(p) == Some(f.package)) && f.advisory in service(f.package)
  {
    var queries := QueriesOf(purls);
    AlignedService(queries, ask, service, results);
    QueriesMember(purls, f.package);
    AttributeMember(queries, results, |results|, f);
    if f.package in queries && f.advisory in service(f.package) {
      var i :| 0 <= i < |queries| && queries[i] == f.package;
      assert f.advisory in results[i];
    }
  }
}
