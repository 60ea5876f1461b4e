/** What the audit ledger's integrity check accepts and reports (backend/scanners/policy_security.py:95-127). */
module AuditChain {
  import opened Governance

  datatype ChainError =
    | ChainBreak(number: nat, expectedPrev: string, got: string)
    | HashMismatch(number: nat, computed: string, recorded: string)

  /** The `prev_audit_hash` the entry at position `i` ought to carry. */
  function ExpectedPrev(log: seq<Entry>, i: nat): string
    requires i <= |log|
  {
    if i == 0 then GENESIS_PREV else log[i - 1].hash
  }

  predicate Linked(sha: Hasher, log: seq<Entry>, i: nat)
    requires i < |log|
  {
    log[i].body.prevHash == ExpectedPrev(log, i) && log[i].hash == sha(log[i].body)
  }

  /** An intact chain: every entry names its predecessor's hash and carries its own. */
  predicate Accepted(sha: Hasher, log: seq<Entry>) {
    forall i | 0 <= i < |log| :: Linked(sha, log, i)
  }

  /** The numbers `_append_audit_entry` gives out. */
  predicate Numbered(log: seq<Entry>) {
    forall i | 0 <= i < |log| :: log[i].body.number == i + 1
  }

  /** The reports on one entry, in the order they are made. */
  function EntryErrors(sha: Hasher, log: seq<Entry>, i: nat): seq<ChainError>
    requires i < |log|
  {
    var e, prev := log[i], ExpectedPrev(log, i);
    (if e.body.prevHash != prev then [ChainBreak(e.body.number, prev, e.body.prevHash)] else []) +
    (if sha(e.body) != e.hash then [HashMismatch(e.body.number, sha(e.body), e.hash)] else [])
  }

  /** All reports on the first `upTo` entries. */
  function ChainErrors(sha: Hasher, log: seq<Entry>, upTo: nat): seq<ChainError>
    requires upTo <= |log|
  {
    if upTo == 0 then [] else ChainErrors(sha, log, upTo - 1) + EntryErrors(sha, log, upTo - 1)
  }

  /** Nothing is reported exactly when every entry is linked. */
  lemma {:induction false} NoErrorsMeansLinked(sha: Hasher, log: seq<Entry>, upTo: nat)
    requires upTo <= |log|
    ensures ChainErrors(sha, log, upTo) == [] <==> forall i | 0 <= i < upTo :: Linked(sha, log, i)
  {
    if upTo > 0 {
      NoErrorsMeansLinked(sha, log, upTo - 1);
      assert EntryErrors(sha, log, upTo - 1) == [] <==> Linked(sha, log, upTo - 1);
    }
  }

  // ----- Reachable ledgers -----

  lemma ExtensionAccepted(sha: Hasher, log: seq<Entry>, longer: seq<Entry>)
    requires Accepted(sha, log) && Numbered(log)
    requires log <= longer && |longer| == |log| + 1
    requires longer[|log|].body.prevHash == PrevHash(log) && longer[|log|].body.number == |longer|
    requires longer[|log|].hash == sha(longer[|log|].body)
    ensures Accepted(sha, longer) && Numbered(longer)
  {
    forall i | 0 <= i < |longer| ensures Linked(sha, longer, i) {
      if i < |log| {
        assert Linked(sha, log, i);
      }
    }
  }

  lemma StepAccepted(sha: Hasher, g: Gov, op: Op)
    requires Accepted(sha, g.log) && Numbered(g.log)
    ensures Accepted(sha, Step(sha, g, op).log) && Numbered(Step(sha, g, op).log)
  {
    var after := Step(sha, g, op).log;
    if Verdict(g.table, op).Done? {
      if |after| == |g.log| + 2 {
        ExtensionAccepted(sha, g.log, after[..|g.log| + 1]);
        ExtensionAccepted(sha, after[..|g.log| + 1], after);
      } else {
        ExtensionAccepted(sha, g.log, after);
      }
    }
  }

  /** The check accepts the ledger of every reachable controller, whose entries are numbered from one. */
  lemma {:induction false} EveryRunAccepted(sha: Hasher, boot: string, ops: seq<Op>)
    ensures Accepted(sha, Run(sha, boot, ops).log) && Numbered(Run(sha, boot, ops).log)
  {
    if ops == [] {
      ExtensionAccepted(sha, [], Initial(sha, boot).log);
    } else {
      EveryRunAccepted(sha, boot, ops[..|ops| - 1]);
      StepAccepted(sha, Run(sha, boot, ops[..|ops| - 1]), ops[|ops| - 1]);
    }
  }

  // ----- Tampering -----

  /** Two different payloads of the ledgers share a hash, or one hashes to the genesis marker. */
  predicate HashAccident(sha: Hasher, a: seq<Entry>, b: seq<Entry>) {
    || (exists i, j | 0 <= i < |a| && 0 <= j < |b| :: a[i].body != b[j].body && sha(a[i].body) == sha(b[j].body))
    || (exists i | 0 <= i < |a| :: sha(a[i].body) == GENESIS_PREV)
    || (exists j | 0 <= j < |b| :: sha(b[j].body) == GENESIS_PREV)
  }

  lemma AccidentOfPrefixes(sha: Hasher, a: seq<Entry>, b: seq<Entry>, m: nat, n: nat)
    requires m <= |a| && n <= |b| && HashAccident(sha, a[..m], b[..n])
    ensures HashAccident(sha, a, b)
  {
    if i, j :| 0 <= i < m && 0 <= j < n && a[..m][i].body != b[..n][j].body
               && sha(a[..m][i].body) == sha(b[..n][j].body) {
      assert a[i].body != b[j].body && sha(a[i].body) == sha(b[j].body);
    } else if i :| 0 <= i < m && sha(a[..m][i].body) == GENESIS_PREV {
      assert sha(a[i].body) == GENESIS_PREV;
    } else {
      var j :| 0 <= j < n && sha(b[..n][j].body) == GENESIS_PREV;
      assert sha(b[j].body) == GENESIS_PREV;
    }
  }

  lemma PrefixAccepted(sha: Hasher, log: seq<Entry>, n: nat)
    requires Accepted(sha, log) && n <= |log|
    ensures Accepted(sha, log[..n])
  {
    forall i | 0 <= i < n ensures Linked(sha, log[..n], i) {
      assert Linked(sha, log, i);
    }
  }

  /**
   The last hash fixes the whole ledger: two accepted ledgers, of whatever lengths, that end in
   the same hash are equal entry for entry, unless they exhibit a hash accident.  Hence editing,
   swapping, inserting or dropping entries while keeping the last hash is reported.
   */
  lemma {:induction false} LastHashFixesLedger(sha: Hasher, a: seq<Entry>, b: seq<Entry>)
    requires Accepted(sha, a) && Accepted(sha, b) && PrevHash(a) == PrevHash(b)
    ensures a == b || HashAccident(sha, a, b)
  {
    var m, n := |a| - 1, |b| - 1;
    if a != [] && b != [] {
      assert Linked(sha, a, m) && Linked(sha, b, n);
      if a[m].body == b[n].body {
        PrefixAccepted(sha, a, m);
        PrefixAccepted(sha, b, n);
        LastHashFixesLedger(sha, a[..m], b[..n]);
        if a[..m] == b[..n] {
          assert a == a[..m] + [a[m]] && b == b[..n] + [b[n]];
        } else {
          AccidentOfPrefixes(sha, a, b, m, n);
        }
      }
    } else if a != [] {
      assert Linked(sha, a, m);
    } else if b != [] {
      assert Linked(sha, b, n);
    }
  }

  /** Replacing one entry by a different one under the same recorded hash is reported. */
  lemma EditReported(sha: Hasher, log: seq<Entry>, i: nat, forged: Entry)
    requires Accepted(sha, log) && i < |log| && forged != log[i] && forged.hash == log[i].hash
    ensures !Accepted(sha, log[i := forged]) || HashAccident(sha, log, log[i := forged])
  {
    if Accepted(sha, log[i := forged]) {
      LastHashFixesLedger(sha, log, log[i := forged]);
      assert log[i := forged][i] != log[i];
    }
  }

  /**
   Removing the entries from `i` up to `j` goes unnoticed exactly when nothing is removed or the
   removal reaches the end of the ledger: the check has no record of how long the ledger was.
   */
  lemma CutAcceptedOnlyAtEnd(sha: Hasher, log: seq<Entry>, i: nat, j: nat)
    requires Accepted(sha, log) && Numbered(log) && i <= j <= |log|
    ensures (Accepted(sha, log[..i] + log[j..]) <==> i == j || j == |log|) || HashAccident(sha, log, log)
  {
    var cut := log[..i] + log[j..];
    if i == j {
      assert cut == log;
    } else if j == |log| {
      assert cut == log[..i];
      PrefixAccepted(sha, log, i);
    } else if Accepted(sha, cut) {
      assert Linked(sha, cut, i) && cut[i] == log[j];
      assert Linked(sha, log, j) && Linked(sha, log, j - 1);
      if i > 0 {
        assert Linked(sha, log, i - 1) && cut[i - 1] == log[i - 1];
        assert log[i - 1].body.number != log[j - 1].body.number;
        assert sha(log[i - 1].body) == sha(log[j - 1].body);
      } else {
        assert sha(log[j - 1].body) == GENESIS_PREV;
      }
    }
  }

  /** Entry `i` names the hash `got` as its predecessor's, which is `expected`. */
  predicate BrokenAt(log: seq<Entry>, i: nat, number: nat, expected: string, got: string)
    requires i < |log|
  {
    && log[i].body.number == number && log[i].body.prevHash == got != expected
    && expected == if i == 0 then GENESIS_PREV else log[i - 1].hash
  }

  /** Entry `i` records a hash that is not that of its contents. */
  predicate AlteredAt(sha: Hasher, log: seq<Entry>, i: nat, number: nat, computed: string, recorded: string)
    requires i < |log|
  {
    log[i].body.number == number && sha(log[i].body) == computed != recorded == log[i].hash
  }

  /** The links reported broken are exactly those that are, each with the hash expected and the one found. */
  lemma {:induction false} BreaksMember(sha: Hasher, log: seq<Entry>, upTo: nat, number: nat, x: string, y: string)
    requires upTo <= |log|
    ensures ChainBreak(number, x, y) in ChainErrors(sha, log, upTo) <==>
            exists i :: 0 <= i < upTo && BrokenAt(log, i, number, x, y)
  {
    if upTo > 0 {
      BreaksMember(sha, log, upTo - 1, number, x, y);
      assert ChainBreak(number, x, y) in EntryErrors(sha, log, upTo - 1) <==> BrokenAt(log, upTo - 1, number, x, y);
    }
  }

  /** The entries reported altered are exactly those whose hash is not that of their contents. */
  lemma {:induction false} MismatchesMember(sha: Hasher, log: seq<Entry>, upTo: nat, number: nat, x: string, y: string)
    requires upTo <= |log|
    ensures HashMismatch(number, x, y) in ChainErrors(sha, log, upTo) <==>
            exists i :: 0 <= i < upTo && AlteredAt(sha, log, i, number, x, y)
  {
    if upTo > 0 {
      MismatchesMember(sha, log, upTo - 1, number, x, y);
      assert HashMismatch(number, x, y) in EntryErrors(sha, log, upTo - 1) <==>
             AlteredAt(sha, log, upTo - 1, number, x, y);
    }
  }
}
