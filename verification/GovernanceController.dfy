/**
 The controller itself: each operation updates the fields in place, meets its specification in
 `Governance`, and keeps the ledger replayable and intact.
 */
module GovernanceController {
  import opened Common
  import opened Governance
  import opened AuditChain

  /** What holds of a controller between calls. */
  ghost predicate Sound(sha: Hasher, g: Gov) {
    WellKept(g.table) && Replay(g.log) == g.table && Accepted(sha, g.log) && Numbered(g.log)
  }

  lemma InitialSound(sha: Hasher, boot: string)
    ensures Sound(sha, Initial(sha, boot))
  {
    EveryRunAccepted(sha, boot, []);
    ReplayRebuildsState(sha, boot, []);
  }

  /** Every call keeps it. */
  lemma StepSound(sha: Hasher, g: Gov, op: Op)
    requires Sound(sha, g)
    ensures Sound(sha, Step(sha, g, op))
  {
    StepKeeps(sha, g, op);
    StepReplays(sha, g, op);
    StepAccepted(sha, g, op);
  }

  class PolicySecurityController {
    const sha: Hasher
    var auditLog: seq<Entry>
    var versions: map<string, Version>
    var activeVersion: Option<string>

    ghost function State(): Gov
      reads this
    {
      Gov(Table(versions, activeVersion), auditLog)
    }

    /** The ledger rebuilds the table, which is well kept, and passes its own integrity check. */
    ghost predicate Valid()
      reads this
    {
      Sound(sha, State())
    }

    constructor (sha: Hasher, boot: string)
      ensures this.sha == sha && State() == Initial(sha, boot) && Valid()
    {
      this.sha := sha;
      auditLog, versions, activeVersion := [], map[], None;
      new;
      AppendAuditEntry(LedgerGenesis, "SYSTEM", "ecdat:policy:genesis", "0.0.0",
                       Note("Policy security & governance ledger initialized."), boot);
      InitialSound(sha, boot);
    }

    method AppendAuditEntry(action: Action, actor: string, policyId: string, version: string,
                            details: Details, now: string)
      modifies this`auditLog
      ensures auditLog == Append(sha, old(auditLog), action, actor, policyId, version, details, now)
    {
      var prevHash := if auditLog != [] then auditLog[|auditLog| - 1].hash else GENESIS_PREV;
      var body := Payload(|auditLog| + 1, now, action, actor, policyId, version, details, prevHash);
      auditLog := auditLog + [Entry(body, sha(body))];
    }

    /** Checks the whole chain; reports every fault, and succeeds exactly on an intact chain. */
    method VerifyAuditChainIntegrity() returns (ok: bool, errors: seq<ChainError>)
      ensures ok <==> Accepted(sha, auditLog)
      ensures errors == ChainErrors(sha, auditLog, |auditLog|)
    {
      errors := [];
      for i := 0 to |auditLog|
        invariant errors == ChainErrors(sha, auditLog, i)
      {
        var e := auditLog[i];
        var prev := if i > 0 then auditLog[i - 1].hash else GENESIS_PREV;
        ghost var before := errors;
        if e.body.prevHash != prev {
          errors := errors + [ChainBreak(e.body.number, prev, e.body.prevHash)];
        }
        var computed := sha(e.body);
        if computed != e.hash {
          errors := errors + [HashMismatch(e.body.number, computed, e.hash)];
        }
        assert errors == before + EntryErrors(sha, auditLog, i);
      }
      NoErrorsMeansLinked(sha, auditLog, |auditLog|);
      ok := |errors| == 0;
    }

    method CreateDraft(doc: PolicyDoc, author: Identity, now: string) returns (outcome: Outcome)
      requires Valid()
      modifies this
      ensures outcome == Verdict(old(State()).table, Op.CreateDraft(doc, author, now))
      ensures State() == Step(sha, old(State()), Op.CreateDraft(doc, author, now)) && Valid()
    {
      StepSound(sha, State(), Op.CreateDraft(doc, author, now));
      if !IsAdmin(author) { return Refused(Unauthorized); }
      if !ValidPolicy(doc) { return Refused(InvalidSchema); }
      var ver := doc.version;
      if ver in versions && Vetted(versions[ver].status) { return Refused(Immutable); }
      var name := ActorName(author, true, "admin");
      versions := versions[ver := Version(doc.id, Draft, name, None, None, None)];
      AppendAuditEntry(DraftCreated, name, doc.id, ver, DraftDetails(doc.name, doc.rulesCount), now);
      outcome := Done;
    }

    method SubmitForApproval(version: string, submitter: Identity, now: string) returns (outcome: Outcome)
      requires Valid()
      modifies this
      ensures outcome == Verdict(old(State()).table, Submit(version, submitter, now))
      ensures State() == Step(sha, old(State()), Submit(version, submitter, now)) && Valid()
    {
      StepSound(sha, State(), Submit(version, submitter, now));
      if !IsAdmin(submitter) { return Refused(Unauthorized); }
      if version !in versions { return Refused(UnknownVersion); }
      var item := versions[version];
      if item.status != Draft { return Refused(WrongStatus); }
      var name := ActorName(submitter, false, "admin");
      versions := versions[version := item.(status := PendingApproval)];
      AppendAuditEntry(SubmittedForApproval, name, item.policyId, version, SubmitDetails(name), now);
      outcome := Done;
    }

    method ApprovePolicy(version: string, approver: Identity, comments: Option<string>, now: string)
      returns (outcome: Outcome)
      requires Valid()
      modifies this
      ensures outcome == Verdict(old(State()).table, Approve(version, approver, comments, now))
      ensures State() == Step(sha, old(State()), Approve(version, approver, comments, now)) && Valid()
    {
      StepSound(sha, State(), Approve(version, approver, comments, now));
      if !IsAdmin(approver) { return Refused(Unauthorized); }
      if version !in versions { return Refused(UnknownVersion); }
      var item := versions[version];
      if item.status != PendingApproval { return Refused(WrongStatus); }
      var name := ActorName(approver, true, "approver-admin");
      if name == item.author { return Refused(SelfApproval); }
      var text := OrElse(comments, "Approved by security administrator.");
      versions := versions[version := item.(status := Approved, approver := Some(name), comments := Some(text))];
      AppendAuditEntry(PolicyApproved, name, item.policyId, version, ApprovalDetails(name, text), now);
      outcome := Done;
    }

    /** As in the source, any stored version may be rejected, whatever its status. */
    method RejectPolicy(version: string, reviewer: Identity, reason: string, now: string) returns (outcome: Outcome)
      requires Valid()
      modifies this
      ensures outcome == Verdict(old(State()).table, Reject(version, reviewer, reason, now))
      ensures State() == Step(sha, old(State()), Reject(version, reviewer, reason, now)) && Valid()
    {
      StepSound(sha, State(), Reject(version, reviewer, reason, now));
      if !IsAdmin(reviewer) { return Refused(Unauthorized); }
      if version !in versions { return Refused(UnknownVersion); }
      var item := versions[version];
      var name := ActorName(reviewer, false, "reviewer");
      versions := versions[version := item.(status := Rejected, rejectionReason := Some(reason))];
      AppendAuditEntry(PolicyRejected, name, item.policyId, version, RejectionDetails(name, reason), now);
      outcome := Done;
    }

    method ActivatePolicy(version: string, admin: Identity, now: string, later: string) returns (outcome: Outcome)
      requires Valid()
      modifies this
      ensures outcome == Verdict(old(State()).table, Activate(version, admin, now, later))
      ensures State() == Step(sha, old(State()), Activate(version, admin, now, later)) && Valid()
    {
      StepSound(sha, State(), Activate(version, admin, now, later));
      if !IsAdmin(admin) { return Refused(Unauthorized); }
      if version !in versions { return Refused(UnknownVersion); }
      if versions[version].status != Approved { return Refused(WrongStatus); }
      var name := ActorName(admin, false, "admin");
      var policyId := versions[version].policyId;
      if activeVersion.Some? && activeVersion.value != "" && activeVersion.value in versions {
        var previous := activeVersion.value;
        versions := versions[previous := versions[previous].(status := Superseded)];
        AppendAuditEntry(PolicySuperseded, name, versions[previous].policyId, previous,
                         SupersedeDetails(version), now);
      }
      versions := versions[version := versions[version].(status := Active)];
      activeVersion := Some(version);
      AppendAuditEntry(PolicyActivated, name, policyId, version, ActivationDetails(name), later);
      outcome := Done;
    }

    method RollbackToVersion(target: string, admin: Identity, reason: string, now: string) returns (outcome: Outcome)
      requires Valid()
      modifies this
      ensures outcome == Verdict(old(State()).table, Rollback(target, admin, reason, now))
      ensures State() == Step(sha, old(State()), Rollback(target, admin, reason, now)) && Valid()
    {
      StepSound(sha, State(), Rollback(target, admin, reason, now));
      if !IsAdmin(admin) { return Refused(Unauthorized); }
      if target !in versions { return Refused(UnknownVersion); }
      if !Vetted(versions[target].status) { return Refused(WrongStatus); }
      var current := activeVersion;
      if current.Some? && current.value != "" && current.value in versions {
        versions := versions[current.value := versions[current.value].(status := RolledBack)];
      }
      versions := versions[target := versions[target].(status := Active)];
      activeVersion := Some(target);
      AppendAuditEntry(PolicyRolledBack, ActorName(admin, false, "admin"), versions[target].policyId, target,
                       RollbackDetails(current, target, reason), now);
      outcome := Done;
    }

    /** Signing records an entry and needs no administrator role. */
    method SignPolicyBundle(doc: PolicyDoc, signer: Identity, preview: string, now: string) returns (outcome: Outcome)
      requires Valid()
      modifies this
      ensures outcome == Verdict(old(State()).table, Sign(doc, signer, preview, now))
      ensures State() == Step(sha, old(State()), Sign(doc, signer, preview, now)) && Valid()
    {
      StepSound(sha, State(), Sign(doc, signer, preview, now));
      if !ValidPolicy(doc) { return Refused(InvalidSchema); }
      if signer.Malformed? { return Refused(MalformedSigner); }
      var name := if signer.username.Some? then signer.username.value else "security-officer";
      AppendAuditEntry(PolicySigned, name, doc.id, doc.version, SigningDetails(preview), now);
      outcome := Done;
    }
  }
}
