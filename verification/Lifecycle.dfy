/**
 The path of every policy version, read off the ledger alone (backend/scanners/policy_security.py:61-363):
 which entries can follow which, over all runs.
 */
module Lifecycle {
  import opened Common
  import opened Governance

  // ----- What the ledger says -----

  /** The status an entry gives to a version, if it concerns it; a rollback concerns two versions. */
  function StatusGiven(e: Payload, v: string): Option<Status> {
    if e.action.PolicyRolledBack? && e.version != v then
      if e.details.RollbackDetails? && e.details.previousVersion == Some(v) then Some(RolledBack) else None
    else if e.version != v then None
    else match e.action
      case DraftCreated => Some(Draft)
      case SubmittedForApproval => Some(PendingApproval)
      case PolicyApproved => Some(Approved)
      case PolicyRejected => Some(Rejected)
      case PolicySuperseded => Some(Superseded)
      case PolicyActivated => Some(Active)
      case PolicyRolledBack => Some(Active)
      case LedgerGenesis => None
      case PolicySigned => None
  }

  /** The status the last entry about a version gave it. */
  function LastStatus(log: seq<Entry>, v: string): Option<Status> {
    if log == [] then None
    else
      var given := StatusGiven(log[|log| - 1].body, v);
      if given.Some? then given else LastStatus(log[..|log| - 1], v)
  }

  /** Who drafted the version last. */
  function LastAuthor(log: seq<Entry>, v: string): Option<string> {
    if log == [] then None
    else
      var e := log[|log| - 1].body;
      if e.action.DraftCreated? && e.version == v then Some(e.actor) else LastAuthor(log[..|log| - 1], v)
  }

  /** The version last activated or rolled back to. */
  function LastInForce(log: seq<Entry>): Option<string> {
    if log == [] then None
    else
      var e := log[|log| - 1].body;
      if e.action.PolicyActivated? || e.action.PolicyRolledBack? then Some(e.version)
      else LastInForce(log[..|log| - 1])
  }

  /** Entry `j` gives the version this status, and no entry between `j` and `i` concerns it. */
  predicate Stands(log: seq<Entry>, j: nat, i: nat, v: string, s: Status)
    requires i <= |log|
  {
    && j < i && StatusGiven(log[j].body, v) == Some(s)
    && forall k | j < k < i :: StatusGiven(log[k].body, v).None?
  }

  /** The last status before an entry is that of the last earlier entry about the version. */
  lemma {:induction false} LastStatusIff(log: seq<Entry>, i: nat, v: string, s: Status)
    requires i <= |log|
    ensures LastStatus(log[..i], v) == Some(s) <==> exists j: nat :: Stands(log, j, i, v, s)
  {
    if i > 0 {
      var m: nat := i - 1;
      assert log[..i][..m] == log[..m] && log[..i][m] == log[m];
      LastStatusIff(log, m, v, s);
      if j: nat :| Stands(log, j, i, v, s) {
        assert j == m || Stands(log, j, m, v, s);
      }
      if StatusGiven(log[m].body, v) == Some(s) {
        assert Stands(log, m, i, v, s);
      } else if StatusGiven(log[m].body, v).None? {
        if j: nat :| Stands(log, j, m, v, s) {
          assert Stands(log, j, i, v, s);
        }
      }
    }
  }

  lemma LastsOfExtension(log: seq<Entry>, longer: seq<Entry>, v: string)
    requires log <= longer && |longer| == |log| + 1
    ensures
      var e := longer[|log|].body;
      && LastStatus(longer, v) == (if StatusGiven(e, v).Some? then StatusGiven(e, v) else LastStatus(log, v))
      && LastAuthor(longer, v) == (if e.action.DraftCreated? && e.version == v then Some(e.actor)
                                   else LastAuthor(log, v))
      && LastInForce(longer) == (if e.action.PolicyActivated? || e.action.PolicyRolledBack? then Some(e.version)
                                 else LastInForce(log))
  {
    assert longer[..|longer| - 1] == log;
  }

  // ----- The ledger and the table agree -----

  /** For one version: what the ledger says of it is what the table holds. */
  predicate Agrees(t: Table, log: seq<Entry>, v: string) {
    && LastStatus(log, v) == (if v in t.versions then Some(t.versions[v].status) else None)
    && (v in t.versions ==> LastAuthor(log, v) == Some(t.versions[v].author))
    && LastInForce(log) == t.active
  }

  lemma ActivationAgrees(sha: Hasher, g: Gov, op: Op, v: string)
    requires WellKept(g.table) && Agrees(g.table, g.log, v)
    requires op.Activate? && Verdict(g.table, op).Done?
    ensures Agrees(NextTable(g.table, op), NextLog(sha, g, op), v)
  {
    var log := NextLog(sha, g, op);
    if g.table.active.Some? {
      LastsOfExtension(g.log, log[..|g.log| + 1], v);
      LastsOfExtension(log[..|g.log| + 1], log, v);
    } else {
      LastsOfExtension(g.log, log, v);
    }
  }

  lemma RollbackAgrees(sha: Hasher, g: Gov, op: Op, v: string)
    requires WellKept(g.table) && Agrees(g.table, g.log, v)
    requires op.Rollback? && Verdict(g.table, op).Done?
    ensures Agrees(NextTable(g.table, op), NextLog(sha, g, op), v)
  {
    LastsOfExtension(g.log, NextLog(sha, g, op), v);
  }

  lemma OneVersionAgrees(sha: Hasher, g: Gov, op: Op, v: string)
    requires WellKept(g.table) && Agrees(g.table, g.log, v)
    requires !op.Activate? && !op.Rollback? && Verdict(g.table, op).Done?
    ensures Agrees(NextTable(g.table, op), NextLog(sha, g, op), v)
  {
    LastsOfExtension(g.log, NextLog(sha, g, op), v);
  }

  /** After any run the ledger alone tells every version's status and author, and which is in force. */
  lemma {:induction false} EveryRunAgrees(sha: Hasher, boot: string, ops: seq<Op>, v: string)
    ensures Agrees(Run(sha, boot, ops).table, Run(sha, boot, ops).log, v)
  {
    if ops == [] {
      LastsOfExtension([], Initial(sha, boot).log, v);
    } else {
      var g, op := Run(sha, boot, ops[..|ops| - 1]), ops[|ops| - 1];
      EveryRunAgrees(sha, boot, ops[..|ops| - 1], v);
      EveryRunWellKept(sha, boot, ops[..|ops| - 1]);
      if Verdict(g.table, op).Done? {
        if op.Activate? {
          ActivationAgrees(sha, g, op, v);
        } else if op.Rollback? {
          RollbackAgrees(sha, g, op, v);
        } else {
          OneVersionAgrees(sha, g, op, v);
        }
      }
    }
  }

  // ----- Which calls are accepted, by the ledger -----

  /** The caller's role is `admin` in whatever letter case. */
  predicate Administrator(who: Identity) {
    who.Credentials? && Lower(who.role) == "admin"
  }

  /** What the call needs the ledger to say. */
  predicate Admissible(log: seq<Entry>, op: Op) {
    match op
    case CreateDraft(doc, who, _) =>
      && Administrator(who) && doc.schemaOk && doc.version != ""
      && LastStatus(log, doc.version) !in [Some(Approved), Some(Active), Some(Superseded)]
    case Submit(v, who, _) => Administrator(who) && LastStatus(log, v) == Some(Draft)
    case Approve(v, who, _, _) =>
      && Administrator(who) && LastStatus(log, v) == Some(PendingApproval)
      && LastAuthor(log, v) != Some(
           if who.username.Some? && who.username.value != "" then who.username.value
           else if who.id.Some? && who.id.value != "" then who.id.value
           else "approver-admin")
    case Reject(v, who, _, _) => Administrator(who) && LastStatus(log, v).Some?
    case Activate(v, who, _, _) => Administrator(who) && LastStatus(log, v) == Some(Approved)
    case Rollback(v, who, _, _) =>
      Administrator(who) && LastStatus(log, v) in [Some(Approved), Some(Active), Some(Superseded)]
    case Sign(doc, who, _, _) => doc.schemaOk && doc.version != "" && who.Credentials?
  }

  /** After any run, a call is accepted exactly when the ledger admits it. */
  lemma AcceptedIff(sha: Hasher, boot: string, ops: seq<Op>, op: Op)
    ensures Verdict(Run(sha, boot, ops).table, op).Done? <==> Admissible(Run(sha, boot, ops).log, op)
  {
    var v := match op
      case CreateDraft(doc, _, _) => doc.version
      case Sign(doc, _, _, _) => doc.version
      case _ => op.version;
    EveryRunAgrees(sha, boot, ops, v);
  }

  // ----- Which entries can follow which -----

  /** What must stand before an entry of the ledger. */
  predicate Lawful(log: seq<Entry>, i: nat)
    requires i < |log|
  {
    var before, e := log[..i], log[i].body;
    var last := LastStatus(before, e.version);
    match e.action
    case LedgerGenesis => i == 0
    case DraftCreated => last !in [Some(Approved), Some(Active), Some(Superseded)]
    case SubmittedForApproval => last == Some(Draft)
    case PolicyApproved =>
      last == Some(PendingApproval) && LastAuthor(before, e.version) !in [None, Some(e.actor)]
    case PolicyRejected => last.Some?
    case PolicySuperseded => LastInForce(before) == Some(e.version)
    case PolicyActivated => LawfulActivation(log, i)
    case PolicyRolledBack =>
      && last in [Some(Approved), Some(Active), Some(Superseded)]
      && e.details.RollbackDetails? && e.details.previousVersion == LastInForce(before)
    case PolicySigned => true
  }

  /** Whatever was in force has just been filed as superseded by the version activated, which may be itself. */
  predicate LawfulActivation(log: seq<Entry>, i: nat)
    requires i < |log|
  {
    var v, displaced := log[i].body.version, LastInForce(log[..i]);
    if displaced.None? then LastStatus(log[..i], v) == Some(Approved)
    else
      && i > 0 && log[i - 1].body.action == PolicySuperseded && log[i - 1].body.version == displaced.value
      && log[i - 1].body.details == SupersedeDetails(v) && LastStatus(log[..i - 1], v) == Some(Approved)
  }

  predicate AllLawful(log: seq<Entry>) {
    forall i | 0 <= i < |log| :: Lawful(log, i)
  }

  lemma LawfulPrefix(log: seq<Entry>, longer: seq<Entry>)
    requires log <= longer && AllLawful(log)
    ensures forall i | 0 <= i < |log| :: Lawful(longer, i)
  {
    forall i | 0 <= i < |log| ensures Lawful(longer, i) {
      assert Lawful(log, i) && longer[..i] == log[..i];
      assert i > 0 ==> longer[..i - 1] == log[..i - 1];
    }
  }

  lemma OneEntryLawful(sha: Hasher, g: Gov, op: Op)
    requires WellKept(g.table) && AllLawful(g.log) && forall v :: Agrees(g.table, g.log, v)
    requires !op.Activate? && Verdict(g.table, op).Done?
    ensures AllLawful(NextLog(sha, g, op))
  {
    var log, n := NextLog(sha, g, op), |g.log|;
    LawfulPrefix(g.log, log);
    assert log[..n] == g.log;
    assert Agrees(g.table, g.log, log[n].body.version);
  }

  lemma ActivationLawful(sha: Hasher, g: Gov, op: Op)
    requires WellKept(g.table) && AllLawful(g.log) && forall v :: Agrees(g.table, g.log, v)
    requires op.Activate? && Verdict(g.table, op).Done?
    ensures AllLawful(NextLog(sha, g, op))
  {
    var log, n := NextLog(sha, g, op), |g.log|;
    LawfulPrefix(g.log, log);
    assert log[..n] == g.log;
    assert Agrees(g.table, g.log, op.version);
    if g.table.active.Some? {
      assert log[..n + 1][..n] == g.log;
      LastsOfExtension(g.log, log[..n + 1], op.version);
      assert Lawful(log, n) && Lawful(log, n + 1);
    }
  }

  /** Every entry of every reachable ledger is lawful. */
  lemma {:induction false} EveryRunLawful(sha: Hasher, boot: string, ops: seq<Op>)
    ensures AllLawful(Run(sha, boot, ops).log)
  {
    if ops != [] {
      var g, op := Run(sha, boot, ops[..|ops| - 1]), ops[|ops| - 1];
      EveryRunLawful(sha, boot, ops[..|ops| - 1]);
      EveryRunWellKept(sha, boot, ops[..|ops| - 1]);
      forall v: string ensures Agrees(g.table, g.log, v) {
        EveryRunAgrees(sha, boot, ops[..|ops| - 1], v);
      }
      if Verdict(g.table, op).Done? {
        if op.Activate? {
          ActivationLawful(sha, g, op);
        } else {
          OneEntryLawful(sha, g, op);
        }
      }
    }
  }

  // ----- The path in plain words -----

  /** Before entry `i` there is one that gave the version this status, and none about it in between. */
  ghost predicate Follows(log: seq<Entry>, i: nat, v: string, s: Status)
    requires i <= |log|
  {
    exists j: nat :: Stands(log, j, i, v, s)
  }

  /**
   Over all runs: an approval directly follows a submission of the same version, a submission
   directly follows a draft, an activation directly follows an approval except for the displaced
   version's supersession, and nothing vetted is drafted over.
   */
  lemma LifecycleHolds(sha: Hasher, boot: string, ops: seq<Op>, i: nat)
    requires i < |Run(sha, boot, ops).log|
    ensures
      var log := Run(sha, boot, ops).log;
      var e := log[i].body;
      && (e.action == PolicyApproved ==> Follows(log, i, e.version, PendingApproval))
      && (e.action == SubmittedForApproval ==> Follows(log, i, e.version, Draft))
      && (e.action == PolicyActivated ==>
            || Follows(log, i, e.version, Approved)
            || (i > 0 && log[i - 1].body.action == PolicySuperseded && Follows(log, i - 1, e.version, Approved)))
      && (e.action == DraftCreated ==>
            && !Follows(log, i, e.version, Approved) && !Follows(log, i, e.version, Active)
            && !Follows(log, i, e.version, Superseded))
  {
    var log := Run(sha, boot, ops).log;
    EveryRunLawful(sha, boot, ops);
    assert Lawful(log, i);
    forall s: Status
      ensures LastStatus(log[..i], log[i].body.version) == Some(s) <==> Follows(log, i, log[i].body.version, s)
    {
      LastStatusIff(log, i, log[i].body.version, s);
    }
    if i > 0 {
      LastStatusIff(log, i - 1, log[i].body.version, Approved);
    }
  }
}
