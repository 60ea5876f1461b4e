/**
 Policy governance (backend/scanners/policy_security.py): the lifecycle of policy versions,
 the `active_version` pointer and the hash-chained audit ledger.

 Every operation is specified by a pair of functions on a snapshot of the controller's fields:
 `Verdict` says whether it is refused and why, `Step` gives the whole new snapshot.  The class in
 `GovernanceController` carries the operations out in place and is proved against them.
 */
module Governance {
  import opened Common

  // ----- Data -----

  datatype Status = Draft | PendingApproval | Approved | Active | Superseded | RolledBack | Rejected

  datatype Version = Version(
    policyId: string, status: Status, author: string, approver: Option<string>,
    comments: Option<string>, rejectionReason: Option<string>)

  datatype Action =
    | LedgerGenesis | DraftCreated | SubmittedForApproval | PolicyApproved | PolicyRejected
    | PolicySuperseded | PolicyActivated | PolicyRolledBack | PolicySigned

  datatype Details =
    | Note(text: string)
    | DraftDetails(name: string, rulesCount: nat)
    | SubmitDetails(submitter: string)
    | ApprovalDetails(approver: string, comments: string)
    | RejectionDetails(reviewer: string, reason: string)
    | SupersedeDetails(supersededBy: string)
    | ActivationDetails(activatedBy: string)
    | RollbackDetails(previousVersion: Option<string>, targetVersion: string, reason: string)
    | SigningDetails(signaturePreview: string)

  /** The hashed part of a ledger entry.  `number` stands for the text `AUDIT-<number>`. */
  datatype Payload = Payload(
    number: nat, timestamp: string, action: Action, actor: string, policyId: string,
    version: string, details: Details, prevHash: string)

  datatype Entry = Entry(body: Payload, hash: string)

  /** SHA-256 of the canonical JSON text of a payload, left uninterpreted. */
  type Hasher = Payload -> string

  /** A policy document; `schemaOk` is the verdict of the JSON schema on its other fields. */
  datatype PolicyDoc = PolicyDoc(id: string, version: string, name: string, rulesCount: nat, schemaOk: bool)

  datatype Identity = Malformed | Credentials(role: string, username: Option<string>, id: Option<string>)

  datatype Refusal = Unauthorized | InvalidSchema | UnknownVersion | Immutable | WrongStatus | SelfApproval
                   | MalformedSigner

  datatype Outcome = Done | Refused(reason: Refusal)

  /** What `versions` and `active_version` hold: the state the ledger is meant to record. */
  datatype Table = Table(versions: map<string, Version>, active: Option<string>)

  datatype Gov = Gov(table: Table, log: seq<Entry>)

  /** One call of the controller, with the clock readings it takes. */
  datatype Op =
    | CreateDraft(doc: PolicyDoc, who: Identity, now: string)
    | Submit(version: string, who: Identity, now: string)
    | Approve(version: string, who: Identity, approvalComments: Option<string>, now: string)
    | Reject(version: string, who: Identity, reason: string, now: string)
    | Activate(version: string, who: Identity, now: string, later: string)
    | Rollback(version: string, who: Identity, reason: string, now: string)
    | Sign(doc: PolicyDoc, who: Identity, preview: string, now: string)

  // ----- Ledger -----

  const GENESIS_PREV: string := "0000000000000000000000000000000000000000000000000000000000000000"

  function PrevHash(log: seq<Entry>): string {
    if log == [] then GENESIS_PREV else log[|log| - 1].hash
  }

  function Append(sha: Hasher, log: seq<Entry>, action: Action, actor: string, policyId: string,
                  version: string, details: Details, now: string): (r: seq<Entry>)
    ensures |r| == |log| + 1 && log <= r
    ensures r[|log|].body.prevHash == PrevHash(log) && r[|log|].body.number == |r|
    ensures r[|log|].hash == sha(r[|log|].body)
  {
    var body := Payload(|log| + 1, now, action, actor, policyId, version, details, PrevHash(log));
    log + [Entry(body, sha(body))]
  }

  // ----- Operations on a snapshot -----

  predicate IsAdmin(who: Identity) {
    who.Credentials? && Lower(who.role) == "admin"
  }

  /** `username or id or fallback`, resp. `username or fallback` when ids are not consulted. */
  function ActorName(who: Identity, useId: bool, fallback: string): string {
    if who.Malformed? then fallback
    else OrElse(who.username, if useId then OrElse(who.id, fallback) else fallback)
  }

  /** `validate_policy`: the schema's version pattern never matches the empty string. */
  predicate ValidPolicy(doc: PolicyDoc) {
    doc.schemaOk && doc.version != ""
  }

  /** Statuses whose version can no longer be overwritten and may be rolled back to. */
  predicate Vetted(s: Status) {
    s.Approved? || s.Active? || s.Superseded?
  }

  /** The version a truthy `active_version` names. */
  predicate Names(t: Table, v: string) {
    t.active == Some(v) && v != "" && v in t.versions
  }

  /** The first check an operation fails, in the order the code makes them. */
  function Verdict(t: Table, op: Op): Outcome {
    if !op.Sign? && !IsAdmin(op.who) then Refused(Unauthorized)
    else match op
      case CreateDraft(doc, _, _) =>
        if !ValidPolicy(doc) then Refused(InvalidSchema)
        else if doc.version in t.versions && Vetted(t.versions[doc.version].status) then Refused(Immutable)
        else Done
      case Sign(doc, who, _, _) =>
        if !ValidPolicy(doc) then Refused(InvalidSchema)
        else if who.Malformed? then Refused(MalformedSigner)
        else Done
      case Submit(v, _, _) =>
        if v !in t.versions then Refused(UnknownVersion)
        else if t.versions[v].status.Draft? then Done
        else Refused(WrongStatus)
      case Approve(v, who, _, _) =>
        if v !in t.versions then Refused(UnknownVersion)
        else if !t.versions[v].status.PendingApproval? then Refused(WrongStatus)
        else if ActorName(who, true, "approver-admin") == t.versions[v].author then Refused(SelfApproval)
        else Done
      case Reject(v, _, _, _) => if v !in t.versions then Refused(UnknownVersion) else Done
      case Activate(v, _, _, _) =>
        if v !in t.versions then Refused(UnknownVersion)
        else if t.versions[v].status.Approved? then Done
        else Refused(WrongStatus)
      case Rollback(v, _, _, _) =>
        if v !in t.versions then Refused(UnknownVersion)
        else if Vetted(t.versions[v].status) then Done
        else Refused(WrongStatus)
  }

  function WithStatus(vs: map<string, Version>, v: string, s: Status): map<string, Version> {
    if v in vs then vs[v := vs[v].(status := s)] else vs
  }

  /** The status the version named by `active_version` falls to when another takes its place. */
  function Retire(t: Table, s: Status): map<string, Version> {
    if t.active.Some? && t.active.value != "" then WithStatus(t.versions, t.active.value, s) else t.versions
  }

  function NextTable(t: Table, op: Op): Table
    requires Verdict(t, op).Done?
  {
    var vs := t.versions;
    match op
    case CreateDraft(doc, who, _) =>
      t.(versions := vs[doc.version := Version(doc.id, Draft, ActorName(who, true, "admin"), None, None, None)])
    case Submit(v, _, _) => t.(versions := WithStatus(vs, v, PendingApproval))
    case Approve(v, who, text, _) =>
      t.(versions := vs[v := vs[v].(status := Approved, approver := Some(ActorName(who, true, "approver-admin")),
                                    comments := Some(OrElse(text, "Approved by security administrator.")))])
    case Reject(v, _, reason, _) =>
      t.(versions := vs[v := vs[v].(status := Rejected, rejectionReason := Some(reason))])
    case Activate(v, _, _, _) => Table(WithStatus(Retire(t, Superseded), v, Active), Some(v))
    case Rollback(v, _, _, _) => Table(WithStatus(Retire(t, RolledBack), v, Active), Some(v))
    case Sign(_, _, _, _) => t
  }

  function NextLog(sha: Hasher, g: Gov, op: Op): seq<Entry>
    requires Verdict(g.table, op).Done?
  {
    var vs := g.table.versions;
    match op
    case CreateDraft(doc, who, now) =>
      Append(sha, g.log, DraftCreated, ActorName(who, true, "admin"), doc.id, doc.version,
             DraftDetails(doc.name, doc.rulesCount), now)
    case Submit(v, who, now) =>
      var name := ActorName(who, false, "admin");
      Append(sha, g.log, SubmittedForApproval, name, vs[v].policyId, v, SubmitDetails(name), now)
    case Approve(v, who, text, now) =>
      var name := ActorName(who, true, "approver-admin");
      Append(sha, g.log, PolicyApproved, name, vs[v].policyId, v,
             ApprovalDetails(name, OrElse(text, "Approved by security administrator.")), now)
    case Reject(v, who, reason, now) =>
      var name := ActorName(who, false, "reviewer");
      Append(sha, g.log, PolicyRejected, name, vs[v].policyId, v, RejectionDetails(name, reason), now)
    case Activate(v, who, now, later) =>
      var name := ActorName(who, false, "admin");
      var log :=
        if g.table.active.Some? && Names(g.table, g.table.active.value) then
          var previous := g.table.active.value;
          Append(sha, g.log, PolicySuperseded, name, vs[previous].policyId, previous, SupersedeDetails(v), now)
        else g.log;
      Append(sha, log, PolicyActivated, name, vs[v].policyId, v, ActivationDetails(name), later)
    case Rollback(v, who, reason, now) =>
      Append(sha, g.log, PolicyRolledBack, ActorName(who, false, "admin"), vs[v].policyId, v,
             RollbackDetails(g.table.active, v, reason), now)
    case Sign(doc, who, preview, now) =>
      var name := if who.username.Some? then who.username.value else "security-officer";
      Append(sha, g.log, PolicySigned, name, doc.id, doc.version, SigningDetails(preview), now)
  }

  /** A refused operation changes nothing. */
  function Step(sha: Hasher, g: Gov, op: Op): Gov {
    if Verdict(g.table, op).Done? then Gov(NextTable(g.table, op), NextLog(sha, g, op)) else g
  }

  function Initial(sha: Hasher, boot: string): Gov {
    Gov(Table(map[], None),
        Append(sha, [], LedgerGenesis, "SYSTEM", "ecdat:policy:genesis", "0.0.0",
               Note("Policy security & governance ledger initialized."), boot))
  }

  /** The snapshot after a sequence of calls on a fresh controller. */
  function Run(sha: Hasher, boot: string, ops: seq<Op>): Gov {
    if ops == [] then Initial(sha, boot)
    else Step(sha, Run(sha, boot, ops[..|ops| - 1]), ops[|ops| - 1])
  }

  // ----- Replay: rebuilding the table from the ledger alone -----

  function ReplayEntry(t: Table, e: Payload): Table {
    match e.action
    case DraftCreated => t.(versions := t.versions[e.version := Version(e.policyId, Draft, e.actor, None, None, None)])
    case SubmittedForApproval => t.(versions := WithStatus(t.versions, e.version, PendingApproval))
    case PolicyApproved =>
      if e.version in t.versions && e.details.ApprovalDetails? then
        t.(versions := t.versions[e.version := t.versions[e.version].(
             status := Approved, approver := Some(e.actor), comments := Some(e.details.comments))])
      else t
    case PolicyRejected =>
      if e.version in t.versions && e.details.RejectionDetails? then
        t.(versions := t.versions[e.version := t.versions[e.version].(
             status := Rejected, rejectionReason := Some(e.details.reason))])
      else t
    case PolicySuperseded => t.(versions := WithStatus(t.versions, e.version, Superseded))
    case PolicyActivated => Table(WithStatus(t.versions, e.version, Active), Some(e.version))
    case PolicyRolledBack =>
      var before :=
        if e.details.RollbackDetails? && e.details.previousVersion.Some? then
          WithStatus(t.versions, e.details.previousVersion.value, RolledBack)
        else t.versions;
      Table(WithStatus(before, e.version, Active), Some(e.version))
    case LedgerGenesis => t
    case PolicySigned => t
  }

  function Replay(log: seq<Entry>): Table {
    if log == [] then Table(map[], None)
    else ReplayEntry(Replay(log[..|log| - 1]), log[|log| - 1].body)
  }

  lemma ReplayOfExtension(log: seq<Entry>, longer: seq<Entry>)
    requires log <= longer && |longer| == |log| + 1
    ensures Replay(longer) == ReplayEntry(Replay(log), longer[|log|].body)
  {
    assert longer[..|longer| - 1] == log;
  }

  // ----- What every run keeps -----

  /** Version names are non-empty, `active_version` names a stored version, and only that one is ACTIVE. */
  predicate WellKept(t: Table) {
    && (forall v | v in t.versions :: v != "")
    && (t.active.Some? ==> t.active.value in t.versions)
    && (forall v | v in t.versions :: t.versions[v].status.Active? ==> t.active == Some(v))
  }

  lemma StepKeeps(sha: Hasher, g: Gov, op: Op)
    requires WellKept(g.table)
    ensures WellKept(Step(sha, g, op).table)
  {
  }

  /** Activation writes two entries when it displaces a version, and replaying both does what it did. */
  lemma ActivateReplays(sha: Hasher, g: Gov, op: Op)
    requires WellKept(g.table) && Replay(g.log) == g.table && op.Activate? && Verdict(g.table, op).Done?
    ensures Replay(NextLog(sha, g, op)) == NextTable(g.table, op)
  {
    var log := NextLog(sha, g, op);
    if g.table.active.Some? {
      ReplayOfExtension(g.log, log[..|g.log| + 1]);
      ReplayOfExtension(log[..|g.log| + 1], log);
    } else {
      ReplayOfExtension(g.log, log);
    }
  }

  /** Rollback writes one entry, which names the version it displaces. */
  lemma RollbackReplays(sha: Hasher, g: Gov, op: Op)
    requires WellKept(g.table) && Replay(g.log) == g.table && op.Rollback? && Verdict(g.table, op).Done?
    ensures Replay(NextLog(sha, g, op)) == NextTable(g.table, op)
  {
    ReplayOfExtension(g.log, NextLog(sha, g, op));
  }

  /** Every other call writes one entry about one version, or about none. */
  lemma OneEntryReplays(sha: Hasher, g: Gov, op: Op)
    requires Replay(g.log) == g.table && !op.Activate? && !op.Rollback? && Verdict(g.table, op).Done?
    ensures Replay(NextLog(sha, g, op)) == NextTable(g.table, op)
  {
    ReplayOfExtension(g.log, NextLog(sha, g, op));
  }

  /** Replay keeps pace with every single call. */
  lemma {:induction false} StepReplays(sha: Hasher, g: Gov, op: Op)
    requires WellKept(g.table) && Replay(g.log) == g.table
    ensures Replay(Step(sha, g, op).log) == Step(sha, g, op).table
  {
    if Verdict(g.table, op).Done? {
      match op
      case Activate(_, _, _, _) => ActivateReplays(sha, g, op);
      case Rollback(_, _, _, _) => RollbackReplays(sha, g, op);
      case _ => OneEntryReplays(sha, g, op);
    }
  }

  /** Folding the ledger rebuilds the version table and the active version, after any run. */
  lemma {:induction false} ReplayRebuildsState(sha: Hasher, boot: string, ops: seq<Op>)
    ensures Replay(Run(sha, boot, ops).log) == Run(sha, boot, ops).table
    ensures WellKept(Run(sha, boot, ops).table)
  {
    if ops == [] {
      ReplayOfExtension([], Initial(sha, boot).log);
    } else {
      var g := Run(sha, boot, ops[..|ops| - 1]);
      ReplayRebuildsState(sha, boot, ops[..|ops| - 1]);
      StepReplays(sha, g, ops[|ops| - 1]);
      StepKeeps(sha, g, ops[|ops| - 1]);
    }
  }

  /** At most one version is ACTIVE, and it is the one `active_version` names, after any run. */
  lemma {:induction false} AtMostOneActive(sha: Hasher, boot: string, ops: seq<Op>, v: string, w: string)
    requires v in Run(sha, boot, ops).table.versions && w in Run(sha, boot, ops).table.versions
    requires Run(sha, boot, ops).table.versions[v].status.Active?
    requires Run(sha, boot, ops).table.versions[w].status.Active?
    ensures v == w && Run(sha, boot, ops).table.active == Some(v)
  {
    ReplayRebuildsState(sha, boot, ops);
  }

  lemma EveryRunWellKept(sha: Hasher, boot: string, ops: seq<Op>)
    ensures WellKept(Run(sha, boot, ops).table)
  {
    ReplayRebuildsState(sha, boot, ops);
  }

  lemma StepExtends(sha: Hasher, g: Gov, op: Op)
    ensures g.log <= Step(sha, g, op).log
  {
  }

  /** The ledger only grows: what an earlier snapshot recorded stays, entry for entry. */
  lemma {:induction false} LedgerOnlyGrows(sha: Hasher, boot: string, ops: seq<Op>, k: nat)
    requires k <= |ops|
    ensures Run(sha, boot, ops[..k]).log <= Run(sha, boot, ops).log
    decreases |ops|
  {
    if k == |ops| {
      assert ops[..k] == ops;
    } else {
      LedgerOnlyGrows(sha, boot, ops[..|ops| - 1], k);
      assert ops[..|ops| - 1][..k] == ops[..k];
      StepExtends(sha, Run(sha, boot, ops[..|ops| - 1]), ops[|ops| - 1]);
    }
  }

  // ----- Governance: the named version is in force, and four eyes have seen it -----

  /** The named version is ACTIVE, and every vetted version has an approver other than its author. */
  predicate Governed(t: Table) {
    && WellKept(t)
    && (t.active.Some? ==> t.versions[t.active.value].status.Active?)
    && (forall v | v in t.versions && Vetted(t.versions[v].status) ::
          t.versions[v].approver.Some? && t.versions[v].approver.value != t.versions[v].author)
  }

  /** The call `reject_policy` accepts although it targets the version now in force. */
  predicate RejectsActive(t: Table, op: Op) {
    op.Reject? && IsAdmin(op.who) && op.version in t.versions && t.active == Some(op.version)
  }

  /** A version that is vetted after a call was vetted before it, or has just been approved by someone else. */
  lemma VettedApproved(sha: Hasher, g: Gov, op: Op, v: string)
    requires Governed(g.table)
    requires v in Step(sha, g, op).table.versions && Vetted(Step(sha, g, op).table.versions[v].status)
    ensures
      var item := Step(sha, g, op).table.versions[v];
      item.approver.Some? && item.approver.value != item.author
  {
  }

  /** One call keeps governance exactly when it does not reject the version in force. */
  lemma GovernedStep(sha: Hasher, g: Gov, op: Op)
    requires Governed(g.table)
    ensures Governed(Step(sha, g, op).table) <==> !RejectsActive(g.table, op)
  {
    var t, t' := g.table, Step(sha, g, op).table;
    if RejectsActive(t, op) {
      assert t'.active == Some(op.version) && t'.versions[op.version].status.Rejected?;
    } else {
      StepKeeps(sha, g, op);
      forall v | v in t'.versions && Vetted(t'.versions[v].status)
        ensures t'.versions[v].approver.Some? && t'.versions[v].approver.value != t'.versions[v].author
      {
        VettedApproved(sha, g, op, v);
      }
    }
  }

  /** Governance holds after every call of the run, from the fresh controller on. */
  predicate GovernedThroughout(sha: Hasher, boot: string, ops: seq<Op>) {
    Governed(Run(sha, boot, ops).table) && (ops != [] ==> GovernedThroughout(sha, boot, ops[..|ops| - 1]))
  }

  /** Some call of the run rejects the version in force when it is made. */
  predicate RejectsActiveSomewhere(sha: Hasher, boot: string, ops: seq<Op>) {
    ops != [] && (RejectsActive(Run(sha, boot, ops[..|ops| - 1]).table, ops[|ops| - 1])
                  || RejectsActiveSomewhere(sha, boot, ops[..|ops| - 1]))
  }

  /** Governance holds throughout a run exactly when no call rejects the version then in force. */
  lemma {:induction false} GovernedRuns(sha: Hasher, boot: string, ops: seq<Op>)
    ensures GovernedThroughout(sha, boot, ops) <==> !RejectsActiveSomewhere(sha, boot, ops)
  {
    if ops != [] {
      GovernedRuns(sha, boot, ops[..|ops| - 1]);
      var g := Run(sha, boot, ops[..|ops| - 1]);
      if Governed(g.table) {
        GovernedStep(sha, g, ops[|ops| - 1]);
      }
    }
  }

  // ----- Four-eyes approval by itself -----

  /** Someone other than the author has approved the version. */
  predicate ApprovedByOther(item: Version) {
    item.approver.Some? && item.approver.value != item.author
  }

  /** Every approved, active or superseded version has an approver other than its author. */
  predicate FourEyes(t: Table) {
    WellKept(t) && forall v | v in t.versions && Vetted(t.versions[v].status) :: ApprovedByOther(t.versions[v])
  }

  /** The call files the named version as superseded although nobody else has approved it. */
  predicate SupersedesUnapproved(t: Table, op: Op) {
    && op.Activate? && Verdict(t, op).Done?
    && t.active.Some? && Names(t, t.active.value) && t.active.value != op.version
    && !ApprovedByOther(t.versions[t.active.value])
  }

  /** Rejecting the version in force does not break four-eyes approval; superseding it once redrafted does. */
  lemma FourEyesStep(sha: Hasher, g: Gov, op: Op)
    requires FourEyes(g.table)
    ensures FourEyes(Step(sha, g, op).table) <==> !SupersedesUnapproved(g.table, op)
  {
    var t, t' := g.table, Step(sha, g, op).table;
    if SupersedesUnapproved(t, op) {
      var w := t.active.value;
      assert t'.versions[w].status.Superseded? && !ApprovedByOther(t'.versions[w]);
    } else {
      StepKeeps(sha, g, op);
    }
  }

  /** Four-eyes approval holds after every call of the run. */
  predicate FourEyesThroughout(sha: Hasher, boot: string, ops: seq<Op>) {
    FourEyes(Run(sha, boot, ops).table) && (ops != [] ==> FourEyesThroughout(sha, boot, ops[..|ops| - 1]))
  }

  predicate SupersedesUnapprovedSomewhere(sha: Hasher, boot: string, ops: seq<Op>) {
    ops != [] && (SupersedesUnapproved(Run(sha, boot, ops[..|ops| - 1]).table, ops[|ops| - 1])
                  || SupersedesUnapprovedSomewhere(sha, boot, ops[..|ops| - 1]))
  }

  /** Four-eyes approval holds throughout a run exactly when no activation supersedes an unapproved version. */
  lemma {:induction false} FourEyesRuns(sha: Hasher, boot: string, ops: seq<Op>)
    ensures FourEyesThroughout(sha, boot, ops) <==> !SupersedesUnapprovedSomewhere(sha, boot, ops)
  {
    if ops != [] {
      FourEyesRuns(sha, boot, ops[..|ops| - 1]);
      var g := Run(sha, boot, ops[..|ops| - 1]);
      if FourEyes(g.table) {
        FourEyesStep(sha, g, ops[|ops| - 1]);
      }
    }
  }

  /** What is approved or in force has an approver other than its author; superseded versions may lack one. */
  predicate InForceApproved(t: Table) {
    && WellKept(t)
    && forall v | v in t.versions && (t.versions[v].status.Approved? || t.versions[v].status.Active?) ::
         ApprovedByOther(t.versions[v])
  }

  /** The call puts a version in force again that nobody else has approved. */
  predicate RestoresUnapproved(t: Table, op: Op) {
    op.Rollback? && Verdict(t, op).Done? && !ApprovedByOther(t.versions[op.version])
  }

  lemma InForceStep(sha: Hasher, g: Gov, op: Op)
    requires InForceApproved(g.table)
    ensures InForceApproved(Step(sha, g, op).table) <==> !RestoresUnapproved(g.table, op)
  {
    var t, t' := g.table, Step(sha, g, op).table;
    if RestoresUnapproved(t, op) {
      assert t'.versions[op.version].status.Active? && !ApprovedByOther(t'.versions[op.version]);
    } else {
      StepKeeps(sha, g, op);
    }
  }

  predicate InForceThroughout(sha: Hasher, boot: string, ops: seq<Op>) {
    InForceApproved(Run(sha, boot, ops).table) && (ops != [] ==> InForceThroughout(sha, boot, ops[..|ops| - 1]))
  }

  predicate RestoresUnapprovedSomewhere(sha: Hasher, boot: string, ops: seq<Op>) {
    ops != [] && (RestoresUnapproved(Run(sha, boot, ops[..|ops| - 1]).table, ops[|ops| - 1])
                  || RestoresUnapprovedSomewhere(sha, boot, ops[..|ops| - 1]))
  }

  /** What is in force is approved throughout a run exactly when no rollback restores an unapproved version. */
  lemma {:induction false} InForceRuns(sha: Hasher, boot: string, ops: seq<Op>)
    ensures InForceThroughout(sha, boot, ops) <==> !RestoresUnapprovedSomewhere(sha, boot, ops)
  {
    if ops != [] {
      InForceRuns(sha, boot, ops[..|ops| - 1]);
      var g := Run(sha, boot, ops[..|ops| - 1]);
      if InForceApproved(g.table) {
        InForceStep(sha, g, ops[|ops| - 1]);
      }
    }
  }

  /**
   What the missing status guard of `reject_policy` costs beyond one call: from any governed
   table, rejecting the active version and drafting it anew lets it be superseded and rolled
   back to, so that it is ACTIVE again with no approver at all.
   */
  lemma ApproverCanLapse(sha: Hasher, g: Gov, a: string, b: string, doc: PolicyDoc, who: Identity, now: string)
    requires Governed(g.table) && IsAdmin(who) && ValidPolicy(doc) && doc.version == a
    requires g.table.active == Some(a) && b in g.table.versions && g.table.versions[b].status.Approved?
    ensures
      var g1 := Step(sha, g, Reject(a, who, "", now));
      var g2 := Step(sha, g1, CreateDraft(doc, who, now));
      var g3 := Step(sha, g2, Activate(b, who, now, now));
      var g4 := Step(sha, g3, Rollback(a, who, "", now));
      g4.table.active == Some(a) && g4.table.versions[a].status.Active? && g4.table.versions[a].approver.None?
  {
    var g1 := Step(sha, g, Reject(a, who, "", now));
    var g2 := Step(sha, g1, CreateDraft(doc, who, now));
    assert g2.table.versions[a].status.Draft? && g2.table.versions[a].approver.None?;
    assert g2.table.versions[b].status.Approved? && Names(g2.table, a);
    var g3 := Step(sha, g2, Activate(b, who, now, now));
    assert g3.table.versions[a].status.Superseded? && g3.table.active == Some(b);
  }

  lemma RunMore(sha: Hasher, boot: string, ops: seq<Op>, op: Op)
    ensures Run(sha, boot, ops + [op]) == Step(sha, Run(sha, boot, ops), op)
    ensures RejectsActiveSomewhere(sha, boot, ops + [op]) <==>
            RejectsActive(Run(sha, boot, ops).table, op) || RejectsActiveSomewhere(sha, boot, ops)
  {
    assert (ops + [op])[..|ops|] == ops;
  }

  /** Drafting, submitting and approving a version, by two different people, from any reachable state. */
  lemma RunsToApproval(sha: Hasher, boot: string, ops: seq<Op>, doc: PolicyDoc, author: Identity, approver: Identity,
                       now: string)
    returns (longer: seq<Op>)
    requires ValidPolicy(doc) && doc.version !in Run(sha, boot, ops).table.versions
    requires IsAdmin(author) && IsAdmin(approver)
    requires ActorName(author, true, "admin") != ActorName(approver, true, "approver-admin")
    ensures
      var t, t' := Run(sha, boot, ops).table, Run(sha, boot, longer).table;
      && t'.active == t.active && t'.versions.Keys == t.versions.Keys + {doc.version}
      && t'.versions[doc.version].status.Approved?
      && forall v | v in t.versions :: t'.versions[v] == t.versions[v]
    ensures !RejectsActiveSomewhere(sha, boot, ops) ==> !RejectsActiveSomewhere(sha, boot, longer)
  {
    var draft, submit := Op.CreateDraft(doc, author, now), Submit(doc.version, author, now);
    var approve := Approve(doc.version, approver, None, now);
    RunMore(sha, boot, ops, draft);
    RunMore(sha, boot, ops + [draft], submit);
    RunMore(sha, boot, ops + [draft] + [submit], approve);
    longer := ops + [draft] + [submit] + [approve];
  }

  /** A run without any rejection that ends with one version in force and another approved. */
  lemma RunsToTwoVersions(sha: Hasher, boot: string, doc: PolicyDoc, other: PolicyDoc, author: Identity,
                          approver: Identity, now: string)
    returns (ops: seq<Op>)
    requires ValidPolicy(doc) && ValidPolicy(other) && doc.version != other.version
    requires IsAdmin(author) && IsAdmin(approver)
    requires ActorName(author, true, "admin") != ActorName(approver, true, "approver-admin")
    ensures
      var t := Run(sha, boot, ops).table;
      && Governed(t) && t.active == Some(doc.version)
      && other.version in t.versions && t.versions[other.version].status.Approved?
  {
    var approved := RunsToApproval(sha, boot, [], doc, author, approver, now);
    var activate := Activate(doc.version, author, now, now);
    RunMore(sha, boot, approved, activate);
    ops := RunsToApproval(sha, boot, approved + [activate], other, author, approver, now);
    GovernedRuns(sha, boot, ops);
  }

  /** The lapse is reachable: some run from a fresh controller makes a version ACTIVE that nobody approved. */
  lemma ApproverLapsesInARun(sha: Hasher, boot: string, doc: PolicyDoc, other: PolicyDoc, author: Identity,
                             approver: Identity, now: string)
    returns (ops: seq<Op>)
    requires ValidPolicy(doc) && ValidPolicy(other) && doc.version != other.version
    requires IsAdmin(author) && IsAdmin(approver)
    requires ActorName(author, true, "admin") != ActorName(approver, true, "approver-admin")
    ensures
      var t := Run(sha, boot, ops).table;
      && t.active == Some(doc.version) && doc.version in t.versions
      && t.versions[doc.version].status.Active? && t.versions[doc.version].approver.None?
  {
    var a, b := doc.version, other.version;
    var ready := RunsToTwoVersions(sha, boot, doc, other, author, approver, now);
    ApproverCanLapse(sha, Run(sha, boot, ready), a, b, doc, author, now);
    var reject, redraft := Reject(a, author, "", now), Op.CreateDraft(doc, author, now);
    var displace, rollback := Activate(b, author, now, now), Rollback(a, author, "", now);
    ops := ready + [reject] + [redraft] + [displace] + [rollback];
    RunMore(sha, boot, ready, reject);
    RunMore(sha, boot, ready + [reject], redraft);
    RunMore(sha, boot, ready + [reject] + [redraft], displace);
    RunMore(sha, boot, ready + [reject] + [redraft] + [displace], rollback);
    EveryRunWellKept(sha, boot, ops);
  }

  // ----- What an entry says of the call -----

  /** The name under which a caller acts: user name, for some calls else the id, else a title. */
  function Signature(op: Op): string {
    var name := if op.who.Credentials? then op.who.username else None;
    var id := if op.who.Credentials? && (op.CreateDraft? || op.Approve?) then op.who.id else None;
    if name.Some? && (name.value != "" || op.Sign?) then name.value
    else if id.Some? && id.value != "" then id.value
    else match op
      case Approve(_, _, _, _) => "approver-admin"
      case Reject(_, _, _, _) => "reviewer"
      case Sign(_, _, _, _) => "security-officer"
      case _ => "admin"
  }

  /** What the entry adds: the call's own arguments, and for a rollback the version displaced. */
  predicate Explains(details: Details, op: Op, active: Option<string>) {
    match op
    case CreateDraft(doc, _, _) => details == DraftDetails(doc.name, doc.rulesCount)
    case Submit(_, _, _) => details == SubmitDetails(Signature(op))
    case Approve(_, _, text, _) =>
      details == ApprovalDetails(Signature(op), if text.Some? && text.value != "" then text.value
                                                else "Approved by security administrator.")
    case Reject(_, _, reason, _) => details == RejectionDetails(Signature(op), reason)
    case Activate(_, _, _, _) => details == ActivationDetails(Signature(op))
    case Rollback(v, _, reason, _) => details == RollbackDetails(active, v, reason)
    case Sign(_, _, preview, _) => details == SigningDetails(preview)
  }

  /** An accepted call leaves an entry that names it: who, when, which version, and with what arguments. */
  lemma CallRecorded(sha: Hasher, g: Gov, op: Op)
    requires Verdict(g.table, op).Done?
    ensures
      var log := Step(sha, g, op).log;
      var e := log[|log| - 1].body;
      && |log| > |g.log|
      && e.actor == Signature(op) && Explains(e.details, op, g.table.active)
      && e.timestamp == (if op.Activate? then op.later else op.now)
      && e.version == (if op.CreateDraft? || op.Sign? then op.doc.version else op.version)
      && e.policyId == (if op.CreateDraft? || op.Sign? then op.doc.id else g.table.versions[op.version].policyId)
  {
  }
}
