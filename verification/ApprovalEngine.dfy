/** The workflow engine: it updates records of its registry in place, as `Approval.Step` specifies. */
module ApprovalEngine {
  import opened Common
  import opened Approval

  /** Verification with failing checks is a failure marked in the verifier's name. */
  lemma FailedChecks(env: Setup, reg: Registry, id: string, who: Option<Actor>, results: Option<Results>, now: string)
    requires id in reg && reg[id].state == Applied && !ChecksPass(results)
    ensures Step(env, reg, Op.Verify(id, who, results, now))
         == Step(env, reg, Fail(id, Some(Or(who, "ecdat_rescan", "verifier")), VERIFY_FAILURE, now))
  {
  }

  class ApprovalWorkflowEngine {
    const env: Setup
    var approvals: Registry

    /** Every record is filed under its id, with a connected, recomputable history. */
    ghost predicate Valid()
      reads this
    {
      Sound(env, approvals)
    }

    constructor (env: Setup)
      ensures this.env == env && approvals == Run(env, []) && Valid()
    {
      this.env := env;
      approvals := map[];
    }

    method ProposeRemediation(draft: Draft, who: Option<Actor>, now: string) returns (error: Option<Error>)
      requires Valid()
      modifies this
      ensures error == Refusal(old(approvals), Propose(draft, who, now))
      ensures approvals == Step(env, old(approvals), Propose(draft, who, now)) && Valid()
    {
      StepSound(env, approvals, Op.Propose(draft, who, now));
      var proposer := Or(who, "engineer", "developer");
      if draft.title == "" { return Some(NoTitle); }
      var explicitRequired := env.needsApproval(draft.category, draft.environment);
      var role := RoleOr(proposer, "developer");
      var hash := env.hash(None, Proposal(draft.id, proposer.username, now));
      var initial := Event(None, Proposed, proposer.username, role, now, draft.comments, hash);
      approvals := approvals[draft.id := Record(
        draft.id, Proposed, draft.title, draft.category, draft.environment, explicitRequired,
        Person(proposer.username, role, now), None, None, None, None, [initial], hash)];
      error := None;
    }

    /** The shared tail of every transition: hash, state, event, hash pointer. */
    method Move(id: string, from: State, to: State, actor: string, role: string, now: string, comments: string,
                reason: Option<string>)
      requires id in approvals && from == approvals[id].state
      modifies this
      ensures approvals
           == old(approvals)[id := Advance(env, old(approvals[id]), id, to, actor, role, now, comments, reason)]
    {
      var record := approvals[id];
      var newHash := env.hash(Some(record.currentHash), Transition(id, record.state, to, actor, now, reason));
      record := record.(state := to);
      record := record.(history := record.history + [Event(Some(from), to, actor, role, now, comments, newHash)]);
      record := record.(currentHash := newHash);
      approvals := approvals[id := record];
    }

    method ReviewRemediation(id: string, who: Option<Actor>, comments: string, now: string)
      returns (error: Option<Error>)
      requires Valid()
      modifies this
      ensures error == Refusal(old(approvals), Review(id, who, comments, now))
      ensures approvals == Step(env, old(approvals), Review(id, who, comments, now)) && Valid()
    {
      StepSound(env, approvals, Op.Review(id, who, comments, now));
      var a := Or(who, "tech_lead", "reviewer");
      if id !in approvals { return Some(NotFound); }
      if approvals[id].state != Proposed { return Some(WrongState); }
      Move(id, Proposed, Reviewed, a.username, RoleOr(a, "reviewer"), now, comments, None);
      approvals := approvals[id := approvals[id].(reviewer := Some(Person(a.username, RoleOr(a, "reviewer"), now)))];
      error := None;
    }

    method ApproveRemediation(id: string, who: Option<Actor>, comments: string, now: string)
      returns (error: Option<Error>)
      requires Valid()
      modifies this
      ensures error == Refusal(old(approvals), Approve(id, who, comments, now))
      ensures approvals == Step(env, old(approvals), Approve(id, who, comments, now)) && Valid()
    {
      StepSound(env, approvals, Op.Approve(id, who, comments, now));
      var a := Or(who, "sec_admin", "admin");
      if id !in approvals { return Some(NotFound); }
      if approvals[id].state != Reviewed { return Some(WrongState); }
      if Lower(approvals[id].proposer.username) == Lower(a.username) { return Some(SameProposer); }
      if !AllowedRole(RoleOr(a, "")) { return Some(RoleNotAllowed); }
      MarkApproved(id, a, comments, now);
      error := None;
    }

    method MarkApproved(id: string, a: Actor, comments: string, now: string)
      requires id in approvals && approvals[id].state == Reviewed
      modifies this
      ensures approvals == old(approvals)[id :=
                Advance(env, old(approvals[id]), id, Approved, a.username, RoleOr(a, "admin"), now, comments, None).(
                  approver := Some(Person(a.username, RoleOr(a, "admin"), now)))]
    {
      Move(id, Reviewed, Approved, a.username, RoleOr(a, "admin"), now, comments, None);
      approvals := approvals[id := approvals[id].(approver := Some(Person(a.username, RoleOr(a, "admin"), now)))];
    }

    /** As in the source, the recorded `from_state` is the last event's target. */
    method ApplyRemediation(id: string, who: Option<Actor>, now: string) returns (error: Option<Error>)
      requires Valid()
      modifies this
      ensures error == Refusal(old(approvals), Apply(id, who, now))
      ensures approvals == Step(env, old(approvals), Apply(id, who, now)) && Valid()
    {
      StepSound(env, approvals, Op.Apply(id, who, now));
      if id !in approvals { return Some(NotFound); }
      var record := approvals[id];
      if record.explicitRequired && record.state != Approved { return Some(ApprovalMissing); }
      if record.state !in {Approved, Reviewed, Proposed} { return Some(WrongState); }
      MarkApplied(id, Or(who, "automation_pipeline", "deployer"), record.history[|record.history| - 1].to, now);
      error := None;
    }

    method MarkApplied(id: string, a: Actor, from: State, now: string)
      requires id in approvals && from == approvals[id].state
      modifies this
      ensures approvals == old(approvals)[id :=
                Advance(env, old(approvals[id]), id, Applied, a.username, RoleOr(a, "deployer"), now,
                        "Remediation patch applied to target environment.", None).(
                  deployer := Some(Person(a.username, RoleOr(a, "deployer"), now)))]
    {
      Move(id, from, Applied, a.username, RoleOr(a, "deployer"), now,
           "Remediation patch applied to target environment.", None);
      approvals := approvals[id := approvals[id].(deployer := Some(Person(a.username, RoleOr(a, "deployer"), now)))];
    }

    method VerifyRemediation(id: string, who: Option<Actor>, results: Option<Results>, now: string)
      returns (error: Option<Error>)
      requires Valid()
      modifies this
      ensures error == Refusal(old(approvals), Verify(id, who, results, now))
      ensures approvals == Step(env, old(approvals), Verify(id, who, results, now)) && Valid()
    {
      StepSound(env, approvals, Op.Verify(id, who, results, now));
      var a := Or(who, "ecdat_rescan", "verifier");
      if id !in approvals { return Some(NotFound); }
      if approvals[id].state != Applied { return Some(WrongState); }
      var outcome := if results.Some? then results.value else Results(true, true);
      if !outcome.testsPassed || !outcome.findingResolved {
        FailedChecks(env, approvals, id, who, results, now);
        error := FailRemediation(id, Some(a), VERIFY_FAILURE, now);
        return;
      }
      MarkVerified(id, a, now);
      error := None;
    }

    method MarkVerified(id: string, a: Actor, now: string)
      requires id in approvals && approvals[id].state == Applied
      modifies this
      ensures approvals == old(approvals)[id :=
                Advance(env, old(approvals[id]), id, Verified, a.username, RoleOr(a, "verifier"), now,
                        "Post-remediation verification tests and CBOM comparison succeeded.", None).(
                  verifier := Some(Person(a.username, RoleOr(a, "verifier"), now)))]
    {
      Move(id, Applied, Verified, a.username, RoleOr(a, "verifier"), now,
           "Post-remediation verification tests and CBOM comparison succeeded.", None);
      approvals := approvals[id := approvals[id].(verifier := Some(Person(a.username, RoleOr(a, "verifier"), now)))];
    }

    method RollbackRemediation(id: string, who: Option<Actor>, reason: string, now: string)
      returns (error: Option<Error>)
      requires Valid()
      modifies this
      ensures error == Refusal(old(approvals), Rollback(id, who, reason, now))
      ensures approvals == Step(env, old(approvals), Rollback(id, who, reason, now)) && Valid()
    {
      StepSound(env, approvals, Op.Rollback(id, who, reason, now));
      var a := Or(who, "secops", "admin");
      if id !in approvals { return Some(NotFound); }
      if approvals[id].state !in {Applied, Approved, Reviewed} { return Some(WrongState); }
      Move(id, approvals[id].state, RolledBack, a.username, RoleOr(a, "admin"), now,
           ROLLBACK_NOTE + reason, Some(reason));
      error := None;
    }

    method FailRemediation(id: string, who: Option<Actor>, reason: string, now: string)
      returns (error: Option<Error>)
      requires Valid()
      modifies this
      ensures error == Refusal(old(approvals), Fail(id, who, reason, now))
      ensures approvals == Step(env, old(approvals), Fail(id, who, reason, now)) && Valid()
    {
      StepSound(env, approvals, Op.Fail(id, who, reason, now));
      var a := Or(who, "system", "system");
      if id !in approvals { return Some(NotFound); }
      Move(id, approvals[id].state, Failed, a.username, RoleOr(a, "system"), now, FAILURE_NOTE + reason, Some(reason));
      error := None;
    }
  }
}
