/**
 The remediation approval workflow (backend/scanners/approval_workflow.py): records that move
 through seven states, each with a hash-chained history, under four-eyes and role checks.
 */
module Approval {
  import opened Common

  // ----- Data -----

  datatype State = Proposed | Reviewed | Approved | Applied | Verified | RolledBack | Failed

  datatype Event = Event(
    from: Option<State>, to: State, actor: string, role: string, timestamp: string, comments: string, hash: string)

  datatype Person = Person(username: string, role: string, at: string)

  datatype Record = Record(
    approvalId: string, state: State, title: string, category: string, environment: string, explicitRequired: bool,
    proposer: Person, reviewer: Option<Person>, approver: Option<Person>, deployer: Option<Person>,
    verifier: Option<Person>, history: seq<Event>, currentHash: string)

  type Registry = map<string, Record>

  /** What is hashed besides the previous hash; the key under which the actor appears depends on the target state. */
  datatype Payload =
    | Proposal(approvalId: string, proposer: string, timestamp: string)
    | Transition(approvalId: string, from: State, to: State, actor: string, timestamp: string, reason: Option<string>)

  /** SHA-256 over previous hash and payload; `None` stands for the GENESIS marker. */
  type Hasher = (Option<string>, Payload) -> string

  datatype Actor = Actor(username: string, role: Option<string>)

  /** A proposal with its id resolved and its category normalized. */
  datatype Draft = Draft(id: string, title: string, category: string, environment: string, comments: string)

  datatype Results = Results(testsPassed: bool, findingResolved: bool)

  /** One call of the engine; a missing actor is replaced by the operation's default. */
  datatype Op =
    | Propose(draft: Draft, who: Option<Actor>, now: string)
    | Review(id: string, who: Option<Actor>, comments: string, now: string)
    | Approve(id: string, who: Option<Actor>, comments: string, now: string)
    | Apply(id: string, who: Option<Actor>, now: string)
    | Verify(id: string, who: Option<Actor>, results: Option<Results>, now: string)
    | Rollback(id: string, who: Option<Actor>, reason: string, now: string)
    | Fail(id: string, who: Option<Actor>, reason: string, now: string)

  datatype Error = NoTitle | NotFound | WrongState | ApprovalMissing | SameProposer | RoleNotAllowed

  /** The parts the model takes as given: the hash, and which category in which environment needs sign-off. */
  datatype Setup = Setup(hash: Hasher, needsApproval: (string, string) -> bool)

  // ----- Rules -----

  function Or(who: Option<Actor>, username: string, role: string): Actor {
    if who.Some? then who.value else Actor(username, Some(role))
  }

  function RoleOr(a: Actor, fallback: string): string {
    if a.role.Some? then a.role.value else fallback
  }

  predicate AllowedRole(role: string) {
    Lower(role) in ["admin", "security_lead", "ciso", "secops"]
  }

  const ROLLBACK_NOTE := "Rollback executed: "
  const FAILURE_NOTE := "Remediation marked as failed: "
  const VERIFY_FAILURE := "Verification tests or rescan check failed."

  predicate ChecksPass(results: Option<Results>) {
    results.None? || (results.value.testsPassed && results.value.findingResolved)
  }

  /** The first check an operation fails, if any. */
  function Refusal(reg: Registry, op: Op): Option<Error> {
    match op
    case Propose(draft, _, _) => if draft.title == "" then Some(NoTitle) else None
    case Review(id, _, _, _) =>
      if id !in reg then Some(NotFound) else if reg[id].state != Proposed then Some(WrongState) else None
    case Approve(id, who, _, _) =>
      var approver := Or(who, "sec_admin", "admin");
      if id !in reg then Some(NotFound)
      else if reg[id].state != Reviewed then Some(WrongState)
      else if Lower(reg[id].proposer.username) == Lower(approver.username) then Some(SameProposer)
      else if !AllowedRole(RoleOr(approver, "")) then Some(RoleNotAllowed)
      else None
    case Apply(id, _, _) =>
      if id !in reg then Some(NotFound)
      else if reg[id].explicitRequired && reg[id].state != Approved then Some(ApprovalMissing)
      else if reg[id].state !in {Approved, Reviewed, Proposed} then Some(WrongState)
      else None
    case Verify(id, _, _, _) =>
      if id !in reg then Some(NotFound) else if reg[id].state != Applied then Some(WrongState) else None
    case Rollback(id, _, _, _) =>
      if id !in reg then Some(NotFound)
      else if reg[id].state !in {Applied, Approved, Reviewed} then Some(WrongState)
      else None
    case Fail(id, _, _, _) => if id !in reg then Some(NotFound) else None
  }

  function NewRecord(env: Setup, d: Draft, who: Option<Actor>, now: string): Record {
    var a := Or(who, "engineer", "developer");
    var role := RoleOr(a, "developer");
    var hash := env.hash(None, Proposal(d.id, a.username, now));
    Record(d.id, Proposed, d.title, d.category, d.environment, env.needsApproval(d.category, d.environment),
           Person(a.username, role, now), None, None, None, None,
           [Event(None, Proposed, a.username, role, now, d.comments, hash)], hash)
  }

  /** Appends one event and moves the record on. */
  function Advance(env: Setup, r: Record, id: string, to: State, actor: string, role: string, now: string,
                   comments: string, reason: Option<string>): Record
  {
    var hash := env.hash(Some(r.currentHash), Transition(id, r.state, to, actor, now, reason));
    r.(state := to, currentHash := hash,
       history := r.history + [Event(Some(r.state), to, actor, role, now, comments, hash)])
  }

  function Failing(env: Setup, r: Record, id: string, a: Actor, reason: string, now: string): Record {
    Advance(env, r, id, Failed, a.username, RoleOr(a, "system"), now, FAILURE_NOTE + reason, Some(reason))
  }

  function IdOf(op: Op): string {
    if op.Propose? then op.draft.id else op.id
  }

  /** The record an accepted operation leaves under its id. */
  function Result(env: Setup, reg: Registry, op: Op): Record
    requires Refusal(reg, op) == None
  {
    match op
    case Propose(draft, who, now) => NewRecord(env, draft, who, now)
    case Review(id, who, comments, now) =>
      var a := Or(who, "tech_lead", "reviewer");
      Advance(env, reg[id], id, Reviewed, a.username, RoleOr(a, "reviewer"), now, comments, None).(
        reviewer := Some(Person(a.username, RoleOr(a, "reviewer"), now)))
    case Approve(id, who, comments, now) =>
      var a := Or(who, "sec_admin", "admin");
      Advance(env, reg[id], id, Approved, a.username, RoleOr(a, "admin"), now, comments, None).(
        approver := Some(Person(a.username, RoleOr(a, "admin"), now)))
    case Apply(id, who, now) =>
      var a := Or(who, "automation_pipeline", "deployer");
      Advance(env, reg[id], id, Applied, a.username, RoleOr(a, "deployer"), now,
              "Remediation patch applied to target environment.", None).(
        deployer := Some(Person(a.username, RoleOr(a, "deployer"), now)))
    case Verify(id, who, results, now) =>
      var a := Or(who, "ecdat_rescan", "verifier");
      if !ChecksPass(results) then Failing(env, reg[id], id, a, VERIFY_FAILURE, now)
      else Advance(env, reg[id], id, Verified, a.username, RoleOr(a, "verifier"), now,
                   "Post-remediation verification tests and CBOM comparison succeeded.", None).(
             verifier := Some(Person(a.username, RoleOr(a, "verifier"), now)))
    case Rollback(id, who, reason, now) =>
      var a := Or(who, "secops", "admin");
      Advance(env, reg[id], id, RolledBack, a.username, RoleOr(a, "admin"), now, ROLLBACK_NOTE + reason, Some(reason))
    case Fail(id, who, reason, now) => Failing(env, reg[id], id, Or(who, "system", "system"), reason, now)
  }

  /** A refused operation changes nothing. */
  function Step(env: Setup, reg: Registry, op: Op): Registry {
    if Refusal(reg, op) == None then reg[IdOf(op) := Result(env, reg, op)] else reg
  }

  function Run(env: Setup, ops: seq<Op>): Registry {
    if ops == [] then map[] else Step(env, Run(env, ops[..|ops| - 1]), ops[|ops| - 1])
  }

  // ----- What a history looks like -----

  function Rank(s: State): nat {
    match s
    case Proposed => 0
    case Reviewed => 1
    case Approved => 2
    case Applied => 3
    case Verified => 4
    case RolledBack => 4
    case Failed => 5
  }

  /** The edges of the workflow, for records that need approval and for those that do not. */
  predicate Edge(explicitRequired: bool, from: State, to: State) {
    match to
    case Proposed => false
    case Reviewed => from == Proposed
    case Approved => from == Reviewed
    case Applied => from == Approved || (!explicitRequired && (from == Reviewed || from == Proposed))
    case Verified => from == Applied
    case RolledBack => from == Applied || from == Approved || from == Reviewed
    case Failed => true
  }

  /** The reason that went into an event's hash, read back from its comments. */
  function ReasonOf(e: Event): Option<string> {
    if e.to == RolledBack && |e.comments| >= |ROLLBACK_NOTE| then Some(e.comments[|ROLLBACK_NOTE|..])
    else if e.to == Failed && |e.comments| >= |FAILURE_NOTE| then Some(e.comments[|FAILURE_NOTE|..])
    else None
  }

  /** Event `i` continues the path and carries the hash recomputed from its predecessor and itself. */
  predicate Continues(env: Setup, r: Record, i: nat)
    requires 0 < i < |r.history|
  {
    var before, e := r.history[i - 1], r.history[i];
    && e.from == Some(before.to) && Edge(r.explicitRequired, before.to, e.to)
    && e.hash == env.hash(Some(before.hash),
                          Transition(r.approvalId, before.to, e.to, e.actor, e.timestamp, ReasonOf(e)))
    && (e.to == Approved ==> AllowedRole(e.role) && Lower(e.actor) != Lower(r.proposer.username))
  }

  /** A history that starts with the proposal, never leaves the edges and ends where the record is. */
  predicate WellFormed(env: Setup, r: Record) {
    && r.history != []
    && r.history[0].from == None && r.history[0].to == Proposed
    && r.history[0].hash == env.hash(None, Proposal(r.approvalId, r.proposer.username, r.history[0].timestamp))
    && (forall i | 0 < i < |r.history| :: Continues(env, r, i))
    && r.state == r.history[|r.history| - 1].to
    && r.currentHash == r.history[|r.history| - 1].hash
  }

  /** Advancing along an edge keeps the history well formed; the role fields do not matter to it. */
  lemma AdvanceWellFormed(env: Setup, r: Record, r': Record, to: State, actor: string, role: string, now: string,
                          comments: string, reason: Option<string>)
    requires WellFormed(env, r) && Edge(r.explicitRequired, r.state, to)
    requires ReasonOf(Event(Some(r.state), to, actor, role, now, comments, "")) == reason
    requires to == Approved ==> AllowedRole(role) && Lower(actor) != Lower(r.proposer.username)
    requires
      var a := Advance(env, r, r.approvalId, to, actor, role, now, comments, reason);
      r' == a.(reviewer := r'.reviewer, approver := r'.approver, deployer := r'.deployer, verifier := r'.verifier)
    ensures WellFormed(env, r')
  {
    var n := |r.history|;
    var e := r'.history[n];
    assert ReasonOf(e) == reason;
    forall i | 0 < i < |r'.history| ensures Continues(env, r', i) {
      if i < n {
        assert Continues(env, r, i);
      }
    }
  }

  lemma ReasonReadBack(from: State, actor: string, role: string, now: string, reason: string)
    ensures ReasonOf(Event(Some(from), RolledBack, actor, role, now, ROLLBACK_NOTE + reason, "")) == Some(reason)
    ensures ReasonOf(Event(Some(from), Failed, actor, role, now, FAILURE_NOTE + reason, "")) == Some(reason)
  {
    assert (ROLLBACK_NOTE + reason)[|ROLLBACK_NOTE|..] == reason;
    assert (FAILURE_NOTE + reason)[|FAILURE_NOTE|..] == reason;
  }

  lemma FailingWellFormed(env: Setup, r: Record, a: Actor, reason: string, now: string)
    requires WellFormed(env, r)
    ensures WellFormed(env, Failing(env, r, r.approvalId, a, reason, now))
  {
    ReasonReadBack(r.state, a.username, RoleOr(a, "system"), now, reason);
    AdvanceWellFormed(env, r, Failing(env, r, r.approvalId, a, reason, now), Failed, a.username, RoleOr(a, "system"),
                      now, FAILURE_NOTE + reason, Some(reason));
  }

  /** An accepted transition of a well-formed record leaves a well-formed record: the four that only go forward. */
  lemma ForwardWellFormed(env: Setup, reg: Registry, op: Op)
    requires op.Review? || op.Approve? || op.Apply? || (op.Verify? && ChecksPass(op.results))
    requires op.id in reg && reg[op.id].approvalId == op.id && WellFormed(env, reg[op.id]) && Refusal(reg, op) == None
    ensures WellFormed(env, Result(env, reg, op))
  {
    var r' := Result(env, reg, op);
    match op
    case Review(id, who, comments, now) =>
      var a := Or(who, "tech_lead", "reviewer");
      AdvanceWellFormed(env, reg[id], r', Reviewed, a.username, RoleOr(a, "reviewer"), now, comments, None);
    case Approve(id, who, comments, now) =>
      var a := Or(who, "sec_admin", "admin");
      AdvanceWellFormed(env, reg[id], r', Approved, a.username, RoleOr(a, "admin"), now, comments, None);
    case Apply(id, who, now) =>
      var a := Or(who, "automation_pipeline", "deployer");
      AdvanceWellFormed(env, reg[id], r', Applied, a.username, RoleOr(a, "deployer"), now,
                        "Remediation patch applied to target environment.", None);
    case Verify(id, who, results, now) =>
      var a := Or(who, "ecdat_rescan", "verifier");
      AdvanceWellFormed(env, reg[id], r', Verified, a.username, RoleOr(a, "verifier"), now,
                        "Post-remediation verification tests and CBOM comparison succeeded.", None);
  }

  /** The same for giving up: rollback, failed verification and failure, whose reasons are hashed. */
  lemma BackwardWellFormed(env: Setup, reg: Registry, op: Op)
    requires op.Rollback? || op.Fail? || (op.Verify? && !ChecksPass(op.results))
    requires op.id in reg && reg[op.id].approvalId == op.id && WellFormed(env, reg[op.id]) && Refusal(reg, op) == None
    ensures WellFormed(env, Result(env, reg, op))
  {
    match op
    case Verify(id, who, results, now) =>
      FailingWellFormed(env, reg[id], Or(who, "ecdat_rescan", "verifier"), VERIFY_FAILURE, now);
    case Rollback(id, who, reason, now) =>
      var a := Or(who, "secops", "admin");
      ReasonReadBack(reg[id].state, a.username, RoleOr(a, "admin"), now, reason);
      AdvanceWellFormed(env, reg[id], Result(env, reg, op), RolledBack, a.username, RoleOr(a, "admin"), now,
                        ROLLBACK_NOTE + reason, Some(reason));
    case Fail(id, who, reason, now) => FailingWellFormed(env, reg[id], Or(who, "system", "system"), reason, now);
  }

  lemma StepWellFormed(env: Setup, reg: Registry, op: Op)
    requires op.Propose? || (op.id in reg ==> reg[op.id].approvalId == op.id && WellFormed(env, reg[op.id]))
    requires Refusal(reg, op) == None
    ensures Result(env, reg, op).approvalId == IdOf(op) && WellFormed(env, Result(env, reg, op))
  {
    if op.Rollback? || op.Fail? || (op.Verify? && !ChecksPass(op.results)) {
      BackwardWellFormed(env, reg, op);
    } else if !op.Propose? {
      ForwardWellFormed(env, reg, op);
    }
  }

  /** The registry's invariant: every record is filed under its own id and has a well-formed history. */
  ghost predicate Sound(env: Setup, reg: Registry) {
    forall id | id in reg :: reg[id].approvalId == id && WellFormed(env, reg[id])
  }

  /** Every call keeps it. */
  lemma StepSound(env: Setup, reg: Registry, op: Op)
    requires Sound(env, reg)
    ensures Sound(env, Step(env, reg, op))
  {
    if Refusal(reg, op) == None {
      StepWellFormed(env, reg, op);
    }
  }

  /** In every reachable registry every record's history is a connected, recomputable path. */
  lemma {:induction false} EveryRunWellFormed(env: Setup, ops: seq<Op>, id: string)
    requires id in Run(env, ops)
    ensures Run(env, ops)[id].approvalId == id && WellFormed(env, Run(env, ops)[id])
  {
    if ops != [] {
      var reg := Run(env, ops[..|ops| - 1]);
      forall other | other in reg ensures reg[other].approvalId == other && WellFormed(env, reg[other]) {
        EveryRunWellFormed(env, ops[..|ops| - 1], other);
      }
      StepSound(env, reg, ops[|ops| - 1]);
    }
  }

  // ----- Consequences for every reachable record -----

  /** The last accepted proposal under an id, read off the calls alone. */
  function LastProposal(ops: seq<Op>, id: string): Option<Op> {
    if ops == [] then None
    else
      var op := ops[|ops| - 1];
      if op.Propose? && op.draft.id == id && op.draft.title != "" then Some(op)
      else LastProposal(ops[..|ops| - 1], id)
  }

  /** The record is what the proposal asked for; sign-off is required exactly where the table says so. */
  predicate AsProposed(env: Setup, r: Record, proposal: Op)
    requires proposal.Propose?
  {
    var d := proposal.draft;
    && r.approvalId == d.id && r.title == d.title
    && r.category == d.category && r.environment == d.environment
    && r.explicitRequired == env.needsApproval(d.category, d.environment)
    && r.proposer.username == (if proposal.who.Some? then proposal.who.value.username else "engineer")
    && r.history != [] && r.history[0].actor == r.proposer.username && r.history[0].timestamp == proposal.now
  }

  /** In every reachable registry there is a record exactly under the ids proposed, and it is as last proposed. */
  lemma {:induction false} RecordsAsProposed(env: Setup, ops: seq<Op>, id: string)
    ensures id in Run(env, ops) <==> LastProposal(ops, id).Some?
    ensures LastProposal(ops, id).Some? ==> LastProposal(ops, id).value.Propose?
    ensures id in Run(env, ops) ==> AsProposed(env, Run(env, ops)[id], LastProposal(ops, id).value)
  {
    if ops != [] {
      var reg, op := Run(env, ops[..|ops| - 1]), ops[|ops| - 1];
      RecordsAsProposed(env, ops[..|ops| - 1], id);
      if Refusal(reg, op) == None && IdOf(op) == id && !op.Propose? {
        TransitionExtends(env, reg, op);
        TransitionKeepsProposal(env, reg, op);
      }
    }
  }

  /** The comment recorded with an event is the caller's, or says what was done and why. */
  predicate Commented(e: Event, op: Op)
    requires !op.Propose?
  {
    match op
    case Review(_, _, comments, _) => e.comments == comments
    case Approve(_, _, comments, _) => e.comments == comments
    case Rollback(_, _, reason, _) => e.comments == "Rollback executed: " + reason
    case Fail(_, _, reason, _) => e.comments == "Remediation marked as failed: " + reason
    case _ => true
  }

  lemma CommentsRecorded(env: Setup, reg: Registry, op: Op)
    requires !op.Propose? && op.id in reg && Refusal(reg, op) == None
    ensures Result(env, reg, op).history != []
    ensures Commented(Result(env, reg, op).history[|Result(env, reg, op).history| - 1], op)
  {
  }

  /** A transition moves the state, extends the history and may name a person; all else stays as proposed. */
  lemma TransitionKeepsProposal(env: Setup, reg: Registry, op: Op)
    requires !op.Propose? && op.id in reg && Refusal(reg, op) == None
    ensures
      var r, r' := reg[op.id], Result(env, reg, op);
      r' == r.(state := r'.state, history := r'.history, currentHash := r'.currentHash, reviewer := r'.reviewer,
               approver := r'.approver, deployer := r'.deployer, verifier := r'.verifier)
  {
    if op.Review? || op.Approve? || op.Apply? {
      ForwardKeepsProposal(env, reg, op);
    }
  }

  lemma ForwardKeepsProposal(env: Setup, reg: Registry, op: Op)
    requires op.Review? || op.Approve? || op.Apply?
    requires op.id in reg && Refusal(reg, op) == None
    ensures
      var r, r' := reg[op.id], Result(env, reg, op);
      r' == r.(state := r'.state, history := r'.history, currentHash := r'.currentHash, reviewer := r'.reviewer,
               approver := r'.approver, deployer := r'.deployer, verifier := r'.verifier)
  {
  }

  /**
   A change whose category and environment need sign-off is applied only as the fourth event, right
   after an approval that followed a review, given in one of four roles by someone other than the
   proposer.
   */
  lemma {:induction false} AppliedOnlyAfterApproval(env: Setup, ops: seq<Op>, id: string, i: nat)
    requires id in Run(env, ops) && i < |Run(env, ops)[id].history|
    requires env.needsApproval(Run(env, ops)[id].category, Run(env, ops)[id].environment)
    requires Run(env, ops)[id].history[i].to == Applied
    ensures
      var r := Run(env, ops)[id];
      && i == 3
      && r.history[1].to == Reviewed && r.history[2].to == Approved
      && Lower(r.history[2].role) in ["admin", "security_lead", "ciso", "secops"]
      && Lower(r.history[2].actor) != Lower(r.proposer.username)
  {
    EveryRunWellFormed(env, ops, id);
    RecordsAsProposed(env, ops, id);
    AppliedIsFourth(env, Run(env, ops)[id], i);
  }

  /** After any run, a freshly proposed change can be applied at once exactly when it needs no sign-off. */
  lemma AppliedAtOnceIff(env: Setup, ops: seq<Op>, d: Draft, who: Option<Actor>, deployer: Option<Actor>,
                         now: string, later: string)
    requires d.title != ""
    ensures
      var apply := Apply(d.id, deployer, later);
      var before := Run(env, ops + [Op.Propose(d, who, now)]);
      var after := Run(env, ops + [Op.Propose(d, who, now)] + [apply]);
      && d.id in before && d.id in after
      && (Refusal(before, apply) == None <==> !env.needsApproval(d.category, d.environment))
      && after[d.id].state == if env.needsApproval(d.category, d.environment) then Proposed else Applied
  {
    var propose, apply := Op.Propose(d, who, now), Apply(d.id, deployer, later);
    assert (ops + [propose])[..|ops|] == ops;
    assert (ops + [propose] + [apply])[..|ops| + 1] == ops + [propose];
  }

  /** The state a transition asks for. */
  function Wanted(op: Op): State
    requires !op.Propose?
  {
    match op
    case Review(_, _, _, _) => Reviewed
    case Approve(_, _, _, _) => Approved
    case Apply(_, _, _) => Applied
    case Verify(_, _, _, _) => Verified
    case Rollback(_, _, _, _) => RolledBack
    case Fail(_, _, _, _) => Failed
  }

  /** The approver may approve: in one of four roles, and not the proposer in whatever letter case. */
  predicate MayApprove(r: Record, who: Option<Actor>) {
    var name := if who.Some? then who.value.username else "sec_admin";
    && Lower(name) != Lower(r.proposer.username)
    && (who.None? || (who.value.role.Some?
                      && Lower(who.value.role.value) in ["admin", "security_lead", "ciso", "secops"]))
  }

  /** Whoever acts is filed under the role the call plays, and nobody else changes. */
  predicate Filed(r: Record, r': Record, op: Op)
    requires !op.Propose?
  {
    && (if op.Review? then ActedBy(r'.reviewer, op) else r'.reviewer == r.reviewer)
    && (if op.Approve? then ActedBy(r'.approver, op) else r'.approver == r.approver)
    && (if op.Apply? then ActedBy(r'.deployer, op) else r'.deployer == r.deployer)
    && (if op.Verify? && r'.state == Verified then ActedBy(r'.verifier, op) else r'.verifier == r.verifier)
  }

  lemma SignOffFilled(env: Setup, reg: Registry, op: Op)
    requires (op.Review? || op.Approve?) && op.id in reg && Refusal(reg, op) == None
    ensures Filed(reg[op.id], Result(env, reg, op), op)
  {
  }

  lemma DeployerFilled(env: Setup, reg: Registry, op: Op)
    requires op.Apply? && op.id in reg && Refusal(reg, op) == None
    ensures Filed(reg[op.id], Result(env, reg, op), op)
  {
  }

  lemma VerifierFilled(env: Setup, reg: Registry, op: Op)
    requires op.Verify? && ChecksPass(op.results) && op.id in reg && Refusal(reg, op) == None
    ensures Filed(reg[op.id], Result(env, reg, op), op)
  {
  }

  lemma NobodyFilled(env: Setup, reg: Registry, op: Op)
    requires op.Rollback? || op.Fail? || (op.Verify? && !ChecksPass(op.results))
    requires op.id in reg && Refusal(reg, op) == None
    ensures Filed(reg[op.id], Result(env, reg, op), op)
  {
  }

  lemma RolesFilled(env: Setup, reg: Registry, op: Op)
    requires !op.Propose? && op.id in reg && Refusal(reg, op) == None
    ensures Filed(reg[op.id], Result(env, reg, op), op)
  {
    if op.Review? || op.Approve? {
      SignOffFilled(env, reg, op);
    } else if op.Apply? {
      DeployerFilled(env, reg, op);
    } else if op.Verify? && ChecksPass(op.results) {
      VerifierFilled(env, reg, op);
    } else {
      NobodyFilled(env, reg, op);
    }
  }

  /** The person is the one who made the call, at its time. */
  predicate ActedBy(person: Option<Person>, op: Op)
    requires !op.Propose?
  {
    && person.Some? && person.value.at == op.now
    && person.value.username == if op.who.Some? then op.who.value.username else DefaultActor(op)
  }

  /** Nothing is refused that the workflow allows: the edges are accepted exactly, and lead where they say. */
  lemma AcceptedIff(env: Setup, reg: Registry, op: Op)
    requires !op.Propose?
    ensures Refusal(reg, op) == None <==>
            && op.id in reg && Edge(reg[op.id].explicitRequired, reg[op.id].state, Wanted(op))
            && (op.Approve? ==> MayApprove(reg[op.id], op.who))
    ensures Refusal(reg, op) == None ==>
              Result(env, reg, op).state ==
              if op.Verify? && op.results.Some? && !(op.results.value.testsPassed && op.results.value.findingResolved)
              then Failed else Wanted(op)
  {
    if op.Approve? {
      assert Lower("admin") == "admin";
    }
  }

  lemma AppliedIsFourth(env: Setup, r: Record, i: nat)
    requires WellFormed(env, r) && i < |r.history| && r.explicitRequired && r.history[i].to == Applied
    ensures i == 3 && r.history[1].to == Reviewed && r.history[2].to == Approved
    ensures AllowedRole(r.history[2].role) && Lower(r.history[2].actor) != Lower(r.proposer.username)
  {
    assert i > 0 && Continues(env, r, i);
    assert i > 1 && Continues(env, r, i - 1);
    assert i > 2 && Continues(env, r, i - 2);
    StartsOnce(env, r, i - 3);
  }

  /** Only the first event is a proposal. */
  lemma StartsOnce(env: Setup, r: Record, k: nat)
    requires WellFormed(env, r) && k < |r.history|
    ensures r.history[k].to == Proposed <==> k == 0
  {
    assert k == 0 || Continues(env, r, k);
  }

  /** Every event raises the rank of the state, except that a failed record may fail again. */
  lemma {:induction false} RanksRise(env: Setup, r: Record, i: nat)
    requires WellFormed(env, r) && i < |r.history|
    ensures i <= Rank(r.history[i].to) || r.history[i].to == Failed
    ensures i > 5 ==> r.history[i - 1].to == Failed
    ensures i > 0 && r.history[i - 1].to != Failed ==> Rank(r.history[i - 1].to) < Rank(r.history[i].to)
  {
    if i > 0 {
      assert Continues(env, r, i);
      RanksRise(env, r, i - 1);
    }
  }

  /** At most five state changes follow the proposal; FAILED is never left. */
  lemma {:induction false} AtMostFiveChanges(env: Setup, ops: seq<Op>, id: string, i: nat)
    requires id in Run(env, ops) && 0 < i < |Run(env, ops)[id].history|
    ensures
      var h := Run(env, ops)[id].history;
      && (h[i].from != Some(h[i].to) ==> i <= 5)
      && (h[i].from == Some(h[i].to) ==> h[i].to == Failed)
      && (h[i - 1].to == Failed ==> h[i].to == Failed)
  {
    EveryRunWellFormed(env, ops, id);
    var r := Run(env, ops)[id];
    assert Continues(env, r, i);
    RanksRise(env, r, i);
  }

  /** An accepted proposal under an id that is already taken. */
  predicate Reproposes(reg: Registry, op: Op, id: string) {
    op.Propose? && op.draft.id == id && op.draft.title != "" && id in reg
  }

  /**
   A record's history survives a call, possibly extended, exactly when the call does not propose the
   same id anew, or repeats the proposal to the letter: the engine replaces the record without a trace.
   */
  lemma HistorySurvivesIff(env: Setup, reg: Registry, op: Op, id: string)
    requires id in reg && reg[id].history != []
    ensures id in Step(env, reg, op)
    ensures reg[id].history <= Step(env, reg, op)[id].history <==>
            !Reproposes(reg, op, id) || reg[id].history == NewRecord(env, op.draft, op.who, op.now).history
  {
    if Refusal(reg, op) == None && !op.Propose? {
      TransitionExtends(env, reg, op);
    }
  }

  /** Who acts when a call names nobody. */
  function DefaultActor(op: Op): string
    requires !op.Propose?
  {
    match op
    case Review(_, _, _, _) => "tech_lead"
    case Approve(_, _, _, _) => "sec_admin"
    case Apply(_, _, _) => "automation_pipeline"
    case Verify(_, _, _, _) => "ecdat_rescan"
    case Rollback(_, _, _, _) => "secops"
    case Fail(_, _, _, _) => "system"
  }

  /** A transition adds one event to the record's history, which says when it happened and who acted. */
  lemma TransitionExtends(env: Setup, reg: Registry, op: Op)
    requires !op.Propose? && op.id in reg && Refusal(reg, op) == None
    ensures reg[op.id].history <= Result(env, reg, op).history
    ensures |Result(env, reg, op).history| == |reg[op.id].history| + 1
    ensures
      var e := Result(env, reg, op).history[|reg[op.id].history|];
      && e.timestamp == op.now && e.from == Some(reg[op.id].state)
      && e.actor == (if op.who.Some? then op.who.value.username else DefaultActor(op))
      && (op.who.Some? && op.who.value.role.Some? ==> e.role == op.who.value.role.value)
  {
  }

  /** Calls concern one record only. */
  lemma OtherRecordsUntouched(env: Setup, reg: Registry, op: Op, id: string)
    requires id != IdOf(op)
    ensures id in Step(env, reg, op) <==> id in reg
    ensures id in reg ==> Step(env, reg, op)[id] == reg[id]
  {
  }

  // ----- What the last hash fixes -----

  /** What event `i` of a record was hashed from. */
  function HashInput(r: Record, i: nat): (Option<string>, Payload)
    requires i < |r.history|
  {
    var e := r.history[i];
    if i == 0 then (None, Proposal(r.approvalId, r.proposer.username, e.timestamp))
    else (Some(r.history[i - 1].hash),
          Transition(r.approvalId, r.history[i - 1].to, e.to, e.actor, e.timestamp, ReasonOf(e)))
  }

  function HashOf(env: Setup, input: (Option<string>, Payload)): string {
    env.hash(input.0, input.1)
  }

  /** Two different inputs among the events of the two records have the same hash. */
  predicate Collision(env: Setup, r: Record, s: Record) {
    exists i, j {:trigger HashInput(r, i), HashInput(s, j)} | 0 <= i < |r.history| && 0 <= j < |s.history| ::
      HashInput(r, i) != HashInput(s, j) && HashOf(env, HashInput(r, i)) == HashOf(env, HashInput(s, j))
  }

  /** What is recorded with an event is the hash of its input. */
  lemma RecordedHash(env: Setup, r: Record, i: nat)
    requires WellFormed(env, r) && i < |r.history|
    ensures r.history[i].hash == HashOf(env, HashInput(r, i))
  {
    assert i == 0 || Continues(env, r, i);
  }

  lemma {:induction false} HashFixesPrefix(env: Setup, r: Record, s: Record, i: nat, j: nat)
    requires WellFormed(env, r) && WellFormed(env, s) && i < |r.history| && j < |s.history|
    requires r.history[i].hash == s.history[j].hash && !Collision(env, r, s)
    ensures i == j && forall k | 0 <= k <= i :: HashInput(r, k) == HashInput(s, k)
  {
    RecordedHash(env, r, i);
    RecordedHash(env, s, j);
    assert HashInput(r, i) == HashInput(s, j);
    if i > 0 {
      HashFixesPrefix(env, r, s, i - 1, j - 1);
    }
  }

  /**
   The current hash fixes the record's id, its proposer and, event by event, states, actor, time
   and hashed reason: two well-formed records with the same current hash agree on all of these,
   or exhibit a collision.  Roles and the comments of the other events are not covered.
   */
  lemma CurrentHashFixesHistory(env: Setup, r: Record, s: Record)
    requires WellFormed(env, r) && WellFormed(env, s) && r.currentHash == s.currentHash && !Collision(env, r, s)
    ensures |r.history| == |s.history| && r.approvalId == s.approvalId && r.state == s.state
    ensures r.proposer.username == s.proposer.username
    ensures forall i | 0 <= i < |r.history| ::
              && r.history[i].from == s.history[i].from && r.history[i].to == s.history[i].to
              && r.history[i].timestamp == s.history[i].timestamp
              && (i > 0 ==> r.history[i].actor == s.history[i].actor)
              && (i > 0 ==> ReasonOf(r.history[i]) == ReasonOf(s.history[i]))
  {
    var n := |r.history| - 1;
    HashFixesPrefix(env, r, s, n, |s.history| - 1);
    assert HashInput(r, 0) == HashInput(s, 0);
    forall i | 0 <= i < |r.history|
      ensures
        && r.history[i].from == s.history[i].from && r.history[i].to == s.history[i].to
        && r.history[i].timestamp == s.history[i].timestamp
        && (i > 0 ==> r.history[i].actor == s.history[i].actor && ReasonOf(r.history[i]) == ReasonOf(s.history[i]))
    {
      assert HashInput(r, i) == HashInput(s, i);
      assert i == 0 || (Continues(env, r, i) && Continues(env, s, i));
    }
  }
}
