# Verified models of the crypto governance pipeline

The repository inventories cryptography in code bases, decides by policy what may stay, rewrites
what may not, and keeps records of who agreed to what. This project models the parts of it that hold
state, rewrite trees or account for things, and proves what they promise. `dafny verify
dfyconfig.toml` checks all of it.

## What is modelled

**Policy governance** (`Governance`, `Lifecycle`, `AuditChain`, `GovernanceController`). Policy versions move
through draft, approval, activation, supersession, rollback and rejection, under one
`active_version` field and an append-only hash-chained ledger. Every call is a pair of functions
on a snapshot of the controller: the verdict (the first check that fails) and the next snapshot.
`PolicySecurityController` does the same in place, meets that specification, and keeps between
calls what the theorems prove: a replayable, intact ledger and a well-kept table. The theorems are
about all runs: folding the ledger rebuilds the version table and the active version; a call is
accepted exactly when the ledger admits it, so that every approval follows a submission, every
submission a draft and every activation an approval; at most one version is ACTIVE; four-eyes approval of everything approved, active or superseded holds exactly for
the runs in which no activation supersedes an unapproved version; the last hash of an accepted ledger
fixes every entry, short of a hash collision.

**Bills of materials** (`CbomModel`, `CbomBuilder`, `CbomMerge`, `CbomBuilders`). Merging works on
shared mutable component objects with a lazily filled key cache. The methods run on a heap of
`Component` objects, possibly the same object several times, and are proved against functions on
contents; those are proved to be a per-reference union. The one-pass builder is proved to refine
"one document per finding, then merge" exactly when asset and file references do not collide.

**Source patches** (`PatchModel`, `PatchChanges`, `SyntaxTree`, `PatchTransformer`). One pass of the syntax tree
visitor, which assigns node fields in place and does not enter the arguments of a call it has
matched. A pass removes exactly as many weak sites as it records; it peels one layer of nesting;
repeated passes converge after as many passes as there are layers, to a tree whose weak sites are
those passed to `generate_private_key` calls. A comparison of trees that knows nothing of weak tokens
finds exactly the recorded differences between input and output, token for token and in order.

**Policy evaluation** (`PolicyEngine`, `EvaluationOrder`, `Sorting`). Rules, assets, exceptions and
deadlines under the precedence BLOCK, WARN, EXCEPTION, ALLOW. The digested summary does not depend on
the order of rules and assets, and on that of exceptions only where two of them contest one decision;
its counts partition the assets, and verdicts are monotone in rules and assets, and in time for rules
that only escalate and without exceptions.

**Remediation approval** (`Approval`, `ApprovalEngine`). Seven states per record, a hash-chained
history per record, four-eyes and role checks, and a path that skips approval for changes that are
not sensitive, which the table of categories and environments decides and nothing else. Each history of each reachable registry is a path of the workflow graph whose hashes
can be recomputed, and the record's current hash fixes everything that went into them, short of a
hash collision.

**Dependencies and vulnerabilities** (`SbomClosure`, `Purl`, `VulnerabilityScan`, `ScanGate`,
`OfflineScan`, `OnlineScan`). The dependency worklist is proved to compute reachability, which is
stated without any worklist; the references written for Python dependencies all resolve; package URLs
survive printing and parsing, and their two parsers agree, exactly under stated conditions. An offline scan is CLEAN, and the gate opens
after it, exactly when no input was invalid and every package that could be read off a component or a
lock file is indexed and matched by nothing, respectively by nothing the settings bar. The gate after
an online scan is characterised in the same way, from package URLs and the service's answers.

**Comparison and scoring** (`CbomDiff`, `CryptoAgility`). A comparison of two documents conserves
assets and can be run backwards; the agility score stays within 0.15 of the exact weighted mean
despite three roundings and, for weights that are not negative, never falls when a raw score rises.

`Common` holds the string operations and option values the models share.

## Where code and documentation part

The models follow the code. These are the places where it does less than one would expect, each
with the exact condition under which the expected property does hold.

- `reject_policy` has no status check, so the version in force can be rejected. The version that
  `active_version` names is ACTIVE, and all vetted versions are approved by others, throughout a run
  if and only if that never happens (`GovernedRuns`). The rejection by itself leaves four-eyes
  approval intact. What breaks it is the next activation, when the rejected version has been drafted
  anew: approved, active and superseded versions all have an approver other than their author
  throughout a run if and only if no activation supersedes a version without one (`FourEyesRuns`).
  Such a version is in force again only by rollback: approved and active versions all have such an
  approver if and only if no rollback restores one without (`InForceRuns`). Both do occur
  (`ApproverCanLapse`, `ApproverLapsesInARun`).
- The ledger check is described as detecting deletion. Cutting entries out is reported exactly when
  the cut does not reach the end of the ledger (`CutAcceptedOnlyAtEnd`): the length is not recorded.
- One rewriting pass is not idempotent; it is if and only if weak calls are not nested outside
  key-generation calls (`OnePassIdempotentIff`).
- The one-pass builder agrees with merging if and only if no asset reference is the reference of a
  scanned file (`OnePassRefinesMerge`).
- Sorting exceptions by id leaves those that share an id in document order. Whether a rule's
  violation by an asset is granted an exception is independent of that order if and only if the
  decision is not contested: no two decisive exceptions share the smallest id of all decisive ones
  while exactly one of them grants (`GrantForgetsOrderIff`). The final actions of all rules on all
  assets are independent of it if and only if no violated rule's decision is contested
  (`ActionsForgetOrderIff`), and for one rule and one asset so is the summary
  (`SummaryForgetsOrderIff`). Any granted exception can be contested (`SharedExceptionIdMatters`).
- The search for an exception ends at the first that is approved or expired, whatever its dates. An
  exception that applies and grants is ignored, in an uncontested decision, if and only if one that
  applies but is expired or not yet valid has the smallest id (`GrantIgnoredIff`).
- Before a deprecation date every rule acts as WARN, which makes an ALLOW rule stricter, not softer;
  `EscalatesOnlyIff` says exactly which rules only ever escalate.
- Proposing a remediation under an id in use replaces the record and its history; the history
  survives a call if and only if the call is not such a proposal or repeats the recorded one to the
  letter (`HistorySurvivesIff`).
- The documented classes RISK_CHANGED and POLICY_CHANGED of a comparison cannot occur, because risk
  and policy status derive from the algorithm, the key size and one shared profile
  (`RiskAndPolicyChangesUnreachable`).
- Coverage rounded to two decimals reads 100.00 while fewer than one package in 20000 is missing, and
  less once more are; exactly one in 20000 is a tie, which reads 99.99 or 100.00
  (`RoundedCoverageHidesGap`). The status does not rest on it (`StatusOf`).
- A component whose package URL cannot be read, because it lacks the scheme or has nothing but an
  ecosystem after it (`UnreadableIff`), is passed over without notice. An offline scan is CLEAN without
  every component having been looked up if and only if some component cannot be read and everything
  else is spotless (`CleanWithoutLookupIff`). A document without a single readable component passes
  the gate offline under every setting, whereas the online scan refuses it
  (`UnreadableDocumentPasses`).
- The online scan passes over components of other ecosystems and those without a version as well. It
  opens the gate with a component never queried if and only if another one can be queried, all chunks
  are answered, and no first finding is barred (`PassesUnqueriedIff`).
- The online scan tells findings apart by package name and advisory only and keeps the first. The gate
  opens although some finding is barred if and only if every target answered and each barred one comes
  after a milder report of the same advisory on the same package (`GateMisledIff`, `FirstReportPrevails`).
- Components without a reference are all filed under "unknown" when documents are compared, and all
  but one of them are lost without notice; assets are kept if and only if no such component meets
  another one there (`NoAssetLostIff`).

## Model

| member | source | states |
|---|---|---|
| Governance.ReplayRebuildsState | backend/scanners/policy_security.py:61-363 | After any run of calls, accepted or refused, folding the ledger alone yields every version's status, author, approver, comments and rejection reason and the active version |
| Governance.StepReplays | backend/scanners/policy_security.py:145-363 | From any state that replay reproduces, one call leads to a state that replay reproduces; activation does so through two entries, rollback through the recorded previous version |
| Governance.CallRecorded | backend/scanners/policy_security.py:145-449 | An accepted call leaves an entry with its time, its version and policy, the caller's name and the call's own arguments; a rollback's names the version displaced |
| Lifecycle.EveryRunAgrees | backend/scanners/policy_security.py:61-363 | After any run the last entry about a version tells its status, the last draft its author, and the last activation or rollback which version is in force |
| Lifecycle.AcceptedIff | backend/scanners/policy_security.py:145-449 | After any run a call is accepted if and only if the ledger admits it: an administrator, and the status the last entry about the version gave it; for an approval also a name other than the last draft's author |
| Lifecycle.EveryRunLawful | backend/scanners/policy_security.py:61-363 | In every reachable ledger each entry follows what it needs: submission a draft, approval a submission by another's draft, activation an approval and the supersession of whatever was in force, rollback a vetted status and the recorded previous version; nothing vetted is drafted over |
| Lifecycle.LifecycleHolds | backend/scanners/policy_security.py:145-363 | The same in terms of positions: before an approval stands a submission of that version with no entry about it in between, a rollback's previous version counted, and likewise for submissions, activations and drafts |
| Governance.StepKeeps | backend/scanners/policy_security.py:145-363 | Every call keeps: version names are not empty, `active_version` names a stored version, and only that version can be ACTIVE |
| Governance.AtMostOneActive | backend/scanners/policy_security.py:276-363 | In every reachable state two ACTIVE versions are the same one, and `active_version` names it |
| Governance.LedgerOnlyGrows | backend/scanners/policy_security.py:61-93 | The ledger of any earlier point of a run is a prefix of the later one, entry for entry |
| Governance.GovernedStep | backend/scanners/policy_security.py:210-363 | From a governed state, a call leads to a governed state if and only if it is not an accepted rejection of the version in force |
| Governance.GovernedRuns | backend/scanners/policy_security.py:145-363 | The named version is ACTIVE and every approved, active or superseded version has an approver other than its author, throughout a run, if and only if no call of the run rejects the version then in force |
| Governance.FourEyesStep | backend/scanners/policy_security.py:145-363 | From a state in which every approved, active or superseded version has an approver other than its author, a call keeps that if and only if it is not an activation that supersedes a version without one |
| Governance.FourEyesRuns | backend/scanners/policy_security.py:145-363 | Four-eyes approval of all approved, active and superseded versions holds throughout a run if and only if no activation of the run supersedes a version that nobody else has approved |
| Governance.InForceStep | backend/scanners/policy_security.py:145-363 | From a state in which every approved or active version has an approver other than its author, a call keeps that if and only if it is not a rollback to a version without one |
| Governance.InForceRuns | backend/scanners/policy_security.py:145-363 | What is approved or in force has an approver other than its author throughout a run if and only if no rollback of the run restores a version that nobody else has approved |
| Governance.ApproverCanLapse | backend/scanners/policy_security.py:251-363 | Rejecting the active version, drafting it anew, activating another and rolling back makes it ACTIVE with no approver, from any governed state that has an approved version |
| Governance.ApproverLapsesInARun | backend/scanners/policy_security.py:145-363 | For any two valid documents and any two administrators with different names, some run from a fresh controller ends with a version ACTIVE that has no approver |
| AuditChain.NoErrorsMeansLinked | backend/scanners/policy_security.py:95-127 | The verifier reports nothing if and only if every entry carries its predecessor's hash and its own recomputed hash |
| AuditChain.BreaksMember | backend/scanners/policy_security.py:95-127 | A broken link is reported if and only if there is one, with the hash expected and the one found |
| AuditChain.MismatchesMember | backend/scanners/policy_security.py:95-127 | An altered entry is reported if and only if its recorded hash is not that of its contents, with both |
| AuditChain.EveryRunAccepted | backend/scanners/policy_security.py:61-127 | The ledger of every reachable state is accepted and numbered from one without gaps |
| AuditChain.LastHashFixesLedger | backend/scanners/policy_security.py:95-127 | Two accepted ledgers of any lengths with the same last hash are equal, or a collision or a preimage of the genesis marker is among their entries |
| AuditChain.EditReported | backend/scanners/policy_security.py:95-127 | Putting a different entry under the recorded hash is reported, short of such a collision |
| AuditChain.CutAcceptedOnlyAtEnd | backend/scanners/policy_security.py:95-127 | Removing a stretch of entries goes unreported if and only if it is empty or reaches the end, short of such a collision |
| GovernanceController.StepSound | backend/scanners/policy_security.py:61-363 | Every call keeps: replaying the ledger gives the table, the table is well kept, and the chain is intact and numbered |
| GovernanceController.PolicySecurityController.constructor | backend/scanners/policy_security.py:38-56 | A fresh controller is the initial snapshot, with no versions and the genesis entry, and its ledger is replayable and intact |
| GovernanceController.PolicySecurityController.AppendAuditEntry | backend/scanners/policy_security.py:61-93 | Adds one entry with the next number, the previous hash and its own hash, and changes nothing else |
| GovernanceController.PolicySecurityController.VerifyAuditChainIntegrity | backend/scanners/policy_security.py:95-127 | Succeeds if and only if the chain is intact, and lists exactly the breaks and mismatches, in order |
| GovernanceController.PolicySecurityController.CreateDraft | backend/scanners/policy_security.py:145-186 | Refuses non-administrators, invalid documents and vetted versions; otherwise stores the draft and records it; the whole new state is stated; afterwards replaying the ledger gives the new table, and the chain is intact |
| GovernanceController.PolicySecurityController.SubmitForApproval | backend/scanners/policy_security.py:188-208 | Moves a draft, and only a draft, to pending approval and records it; afterwards replaying the ledger gives the new table, and the chain is intact |
| GovernanceController.PolicySecurityController.ApprovePolicy | backend/scanners/policy_security.py:210-249 | Approves a pending version on behalf of someone other than its author; refused calls change nothing; afterwards replaying the ledger gives the new table, and the chain is intact |
| GovernanceController.PolicySecurityController.RejectPolicy | backend/scanners/policy_security.py:251-274 | Rejects any stored version, whatever its status, and records the reason; afterwards replaying the ledger gives the new table, and the chain is intact |
| GovernanceController.PolicySecurityController.ActivatePolicy | backend/scanners/policy_security.py:276-316 | Supersedes the version in force, activates an approved one, moves `active_version` and records both changes; afterwards replaying the ledger gives the new table, and the chain is intact |
| GovernanceController.PolicySecurityController.RollbackToVersion | backend/scanners/policy_security.py:321-363 | Marks the version in force rolled back, reactivates the target and records the previous version; afterwards replaying the ledger gives the new table, and the chain is intact |
| GovernanceController.PolicySecurityController.SignPolicyBundle | backend/scanners/policy_security.py:409-449 | Records a signing and leaves versions and `active_version` alone; afterwards replaying the ledger gives the new table, and the chain is intact |
| CbomModel.MergePreserves | backend/scanners/cbom_mapping.py:874-916 | Under every reference the merged document has the first-seen component and the union of all its occurrence keys |
| CbomModel.MergeDistinct | backend/scanners/cbom_mapping.py:874-916 | No reference occurs twice in a merged document |
| CbomModel.MergeGrouping | backend/scanners/cbom_mapping.py:874-916 | Merging merged documents gives the contents that merging everything at once gives |
| CbomModel.MergeOrderIndependent | backend/scanners/cbom_mapping.py:874-916 | References and occurrence keys are the same for every order of the inputs |
| CbomMerge.Component.FillCache | backend/scanners/cbom_mapping.py:896-900 | The cache, filled on first use, is the key set of the stored occurrences |
| CbomMerge.Component.AddOccurrence | backend/scanners/cbom_mapping.py:901-909 | Stores an occurrence if and only if its key is new, and keeps the cache exact |
| CbomMerge.Component.AbsorbEvidence | backend/scanners/cbom_mapping.py:886-909 | Takes in the new occurrences of a later component in order, also when that component is this very object |
| CbomMerge.MergeComponent | backend/scanners/cbom_mapping.py:878-909 | One round of the merge loop keeps the index by reference, the contents so far, and every object outside the result |
| CbomMerge.MergeCboms | backend/scanners/cbom_mapping.py:874-916 | On shared mutable components: the merged contents are those of the specification, edges are united, caches stay exact, and objects not in the result are unchanged |
| CbomBuilder.OnePassRefinesMerge | backend/scanners/cbom_mapping.py:394-485 | For every list of findings, the one-pass builder and merging single documents give the same assets, descriptions, occurrences and file references if and only if asset and file references are disjoint |
| CbomBuilder.RefinesStep | backend/scanners/cbom_mapping.py:402-482 | One more finding is taken in alike by both forms |
| CbomBuilder.OnePassEdges | backend/scanners/cbom_mapping.py:468-482 | The file-to-asset edges are those of all the single documents |
| CbomBuilders.CodeFindingToCbom | backend/scanners/cbom_mapping.py:328-391 | The document of one finding: its file component, its asset and one edge |
| CbomBuilder.DocumentOfFinding | backend/scanners/cbom_mapping.py:328-391 | A file and an asset, each seen at the finding's path and line, the asset under its API symbol or else its rule, and an edge between them |
| CbomBuilder.AssetOfFinding | backend/scanners/cbom_mapping.py:328-391 | The asset's name, kind, algorithm and key size follow from the finding; the key size printed reads back as the number given |
| CbomBuilder.KeptMember | backend/scanners/cbom_mapping.py:402-406 | Exactly the findings of two types are passed over |
| CbomBuilders.MergeOfSingles | backend/scanners/ci_scanner.py:764-788 | Building a document per finding and merging them yields the specified contents and edges |
| CbomBuilders.TakeFinding | backend/scanners/cbom_mapping.py:402-482 | The loop body takes in one finding as specified, skips the two excluded finding types, and touches only its own objects |
| CbomBuilders.CodeFindingsToCbom | backend/scanners/cbom_mapping.py:394-485 | The one-pass builder, on fresh objects, builds the specified files, assets and edges |
| PatchModel.PassCounts | backend/scanners/patch_generator.py:46-127 | A pass lowers the number of weak sites by exactly the number of transformations recorded, leaves those inside key-generation calls, and changes the tree if and only if it records something |
| PatchModel.PassPeelsLayer | backend/scanners/patch_generator.py:46-127 | A pass reduces the nesting depth of weak calls by exactly one, or leaves it at zero |
| PatchModel.PassesConverge | backend/scanners/patch_generator.py:46-147 | After k passes another changes nothing if and only if k has reached the nesting depth, and exactly then the weak sites left are those passed to key-generation calls |
| PatchModel.OnePassIdempotentIff | backend/scanners/patch_generator.py:46-106 | A second pass changes nothing, for a given tree, if and only if the nesting depth is at most one |
| PatchModel.NoLayersMeansSheltered | backend/scanners/patch_generator.py:68-87 | The nesting depth is zero if and only if every weak site is inside what is passed to a key-generation call |
| PatchModel.PassPreservesRest | backend/scanners/patch_generator.py:46-127 | With hash and cipher names, key sizes and hashlib aliases blanked out, a pass changes nothing |
| PatchModel.EditsSound | backend/scanners/patch_generator.py:54-126 | Every record names a weak token and the target that replaced it |
| PatchChanges.NoDifferencesIff | backend/scanners/patch_generator.py:46-147 | The comparison of trees misses nothing: two trees show no difference if and only if they are equal |
| PatchChanges.PassChangesAsRecorded | backend/scanners/patch_generator.py:46-127 | What differs between a tree and its rewriting is, place by place and in order, exactly what the records say was replaced by what, and nothing else |
| PatchChanges.PassChangesIntended | backend/scanners/patch_generator.py:46-127 | Every difference is a listed weak hash or cipher name, a key size below 2048 or an imported md5 or sha1, replaced by the requested hash, AES or 3072 |
| PatchChanges.WeakCallRewritten | backend/scanners/patch_generator.py:51-105 | A call of a listed weak hash or cipher gets the new method name; its arguments are left as they are |
| PatchChanges.KeyGenerationRewritten | backend/scanners/patch_generator.py:68-87 | In a key-generation call every constant key size below 2048, and no other keyword, becomes 3072 |
| PatchChanges.ImportRewritten | backend/scanners/patch_generator.py:108-127 | Of the names imported from hashlib md5 and sha1 become the requested hash, under their own aliases; the others stay |
| PatchTransformer.PythonCryptoTransformer.constructor | backend/scanners/patch_generator.py:41-44 | Starts with no records; the replacement hash follows from the requested algorithm |
| PatchTransformer.PythonCryptoTransformer.Visit | backend/scanners/patch_generator.py:46-127 | Visiting rewrites a tree in place as specified, appends exactly its records in visiting order, and changes nothing else |
| PatchTransformer.PythonCryptoTransformer.VisitParts | backend/scanners/patch_generator.py:106-106 | A call that nothing matches is visited part by part, and then still matches nothing |
| PatchTransformer.PythonCryptoTransformer.RenameCallee | backend/scanners/patch_generator.py:54-96 | Assigning the method name changes that name and nothing else of the call |
| PatchTransformer.PythonCryptoTransformer.VisitCall | backend/scanners/patch_generator.py:46-106 | The same for calls: matched ones are rewritten and not entered |
| PatchTransformer.PythonCryptoTransformer.RaiseKeySizes | backend/scanners/patch_generator.py:69-86 | Raises every small constant key size to 3072, in place, and records each |
| PatchTransformer.PythonCryptoTransformer.VisitImportFrom | backend/scanners/patch_generator.py:108-127 | Renames weak names imported from hashlib, in place, and records each |
| PatchTransformer.TransformTree | backend/scanners/patch_generator.py:130-147 | The result is unchanged if and only if nothing was recorded, weak sites and records add up, and the differences between input and result are exactly the records, each a weak token replaced by the hash chosen from the requested algorithm |
| PolicyEngine.FindMatchingException | backend/scanners/policy_engine.py:315-360 | The first decisive exception decides; what is granted is listed, is for this rule and asset, is approved, and is in force between its dates, both included |
| PolicyEngine.DecisiveGrants | backend/scanners/policy_engine.py:326-360 | The search stops at an exception if and only if it applies and is approved or expired, and grants it if and only if it is approved and in force |
| EvaluationOrder.VerdictOfOne | backend/scanners/policy_engine.py:315-654 | For one violated rule and one exception the verdict is EXCEPTION if the exception applies and is approved and in force, else WARN before the deprecation date, else BLOCK from the enforcement date on, else the rule's action |
| PolicyEngine.DigestLists | backend/scanners/policy_engine.py:669-680 | The digest has exactly one line per asset, with its id and its verdict |
| PolicyEngine.LineSpelled | backend/scanners/policy_engine.py:669-680 | A line spells the verdict BLOCK, WARN, EXCEPTION or ALLOW |
| PolicyEngine.UnviolatedAllowed | backend/scanners/policy_engine.py:575-630 | An asset that violates no rule is allowed |
| PolicyEngine.EvaluateAsset | backend/scanners/policy_engine.py:574-630 | The verdict on an asset is the strongest final action of its violated rules |
| PolicyEngine.Evaluate | backend/scanners/policy_engine.py:523-705 | The summary is that of the sorted rules, exceptions and assets |
| PolicyEngine.Resolve | backend/scanners/policy_engine.py:646-654 | The cascade yields the maximum of the actions under BLOCK, WARN, EXCEPTION, ALLOW |
| EvaluationOrder.EvaluationOrderIndependent | backend/scanners/policy_engine.py:542-681 | The digested summary is unchanged by rearranging assets and rules, whatever their ids, and exceptions, unless a violated rule's decision is contested among them |
| EvaluationOrder.GrantForgetsOrderIff | backend/scanners/policy_engine.py:326-360 | Whether a rule and an asset are granted an exception is the same for every order of the exceptions if and only if no two decisive ones share the smallest decisive id while exactly one of them grants |
| EvaluationOrder.ActionsForgetOrderIff | backend/scanners/policy_engine.py:543-619 | The final actions of all rules on all assets are the same for every order of the exceptions if and only if no violated rule's decision is contested |
| EvaluationOrder.SummaryForgetsOrderIff | backend/scanners/policy_engine.py:543-681 | For one rule and one asset the digested summary is the same for every order of the exceptions if and only if the decision is not contested |
| EvaluationOrder.DistinctIdsUncontested | backend/scanners/policy_engine.py:543 | Exceptions whose ids determine them leave no decision contested |
| EvaluationOrder.SharedExceptionIdMatters | backend/scanners/policy_engine.py:326-543 | For any exception that is granted, dated or not, adding an expired copy under the same id makes the verdict depend on their order |
| EvaluationOrder.GrantIgnoredIff | backend/scanners/policy_engine.py:326-360 | In an uncontested decision an exception that applies and is in force is ignored if and only if one that applies but is marked expired, past its expiry date or not yet valid has the smallest id |
| PolicyEngine.CountsPartitionAssets | backend/scanners/policy_engine.py:646-679 | The four counts add up to the number of assets; the verdict is BLOCK if and only if some asset is blocked, and ALLOW if and only if all are allowed |
| PolicyEngine.MoreRules | backend/scanners/policy_engine.py:574-630 | The verdict on an asset depends only on which rules there are, and more rules never weaken it |
| PolicyEngine.EvaluationMonotone | backend/scanners/policy_engine.py:570-654 | Adding assets or rules never lowers the overall verdict |
| PolicyEngine.EscalatesOnlyIff | backend/scanners/policy_engine.py:499-511 | A rule's action never softens over time if and only if it is at least WARN, has no deprecation date, or is enforced no later than that date |
| PolicyEngine.VerdictNeverSoftens | backend/scanners/policy_engine.py:499-654 | With such rules and no exceptions the overall verdict never softens as time passes |
| Sorting.SortForgetsOrderIff | backend/scanners/policy_engine.py:542-543 | Sorting by id forgets the order of the input if and only if ids determine elements |
| Sorting.SortStable | backend/scanners/policy_engine.py:542-543 | Elements with equal ids keep their order |
| Sorting.LeqIff | backend/scanners/policy_engine.py:542-543 | The order sorted by is ascending: a prefix comes first, otherwise the first difference decides |
| Approval.EveryRunWellFormed | backend/scanners/approval_workflow.py:94-472 | In every reachable registry each record's history starts with its proposal, follows the workflow's edges without gaps, carries recomputable hashes, and ends in the record's state and hash |
| Approval.StepSound | backend/scanners/approval_workflow.py:98-472 | Every call keeps that invariant of the registry |
| Approval.RecordsAsProposed | backend/scanners/approval_workflow.py:98-163 | After any run there is a record under exactly the ids proposed, with title, category, environment and proposer of the last accepted proposal, and it requires approval if and only if the table says so for that category and environment |
| Approval.AppliedOnlyAfterApproval | backend/scanners/approval_workflow.py:214-332 | A change whose category and environment need sign-off is applied as its fourth event, right after a review and an approval in one of four roles by someone other than the proposer |
| Approval.AppliedAtOnceIff | backend/scanners/approval_workflow.py:77-332 | After any run a freshly proposed change can be applied at once if and only if its category and environment need no sign-off |
| Approval.AcceptedIff | backend/scanners/approval_workflow.py:165-472 | A call is accepted if and only if the workflow has the edge it asks for and, for an approval, the approver has one of four roles and is not the proposer; it then leads where it asked, or to FAILED when checks failed |
| Approval.TransitionExtends | backend/scanners/approval_workflow.py:165-472 | A transition adds one event that names the state left, the time and whoever acted, or the default actor of the call |
| Approval.RolesFilled | backend/scanners/approval_workflow.py:165-472 | Reviewer, approver, deployer and verifier are filled in by their own call, with who made it and when, and by no other |
| Approval.RanksRise | backend/scanners/approval_workflow.py:165-472 | Every event raises the rank of the state, except that FAILED may repeat |
| Approval.AtMostFiveChanges | backend/scanners/approval_workflow.py:165-472 | At most five state changes follow a proposal, and FAILED is never left |
| Approval.HistorySurvivesIff | backend/scanners/approval_workflow.py:98-472 | A record's history is kept by a call, possibly extended, if and only if the call does not propose the same id anew, or the history is the very proposal it repeats |
| Approval.OtherRecordsUntouched | backend/scanners/approval_workflow.py:98-472 | A call concerns one record only |
| Approval.CurrentHashFixesHistory | backend/scanners/approval_workflow.py:94-96 | Two well-formed records with the same current hash agree on id, proposer and, event by event, on states, actor, time and hashed reason, unless two different hash inputs among their events collide under the hash |
| ApprovalEngine.ApprovalWorkflowEngine.ProposeRemediation | backend/scanners/approval_workflow.py:98-163 | Files a new record under its id, or refuses a missing title; the whole registry is stated |
| ApprovalEngine.ApprovalWorkflowEngine.ReviewRemediation | backend/scanners/approval_workflow.py:165-212 | Moves a proposed record to REVIEWED and names the reviewer |
| ApprovalEngine.ApprovalWorkflowEngine.ApproveRemediation | backend/scanners/approval_workflow.py:214-278 | Moves a reviewed record to APPROVED, unless the approver is the proposer in any letter case or lacks the role |
| ApprovalEngine.ApprovalWorkflowEngine.ApplyRemediation | backend/scanners/approval_workflow.py:280-332 | Applies an approved record, or an earlier one when no approval is needed; the recorded source state is the last event's target |
| ApprovalEngine.ApprovalWorkflowEngine.VerifyRemediation | backend/scanners/approval_workflow.py:334-385 | Verifies an applied record, or fails it when tests or rescan failed |
| ApprovalEngine.ApprovalWorkflowEngine.RollbackRemediation | backend/scanners/approval_workflow.py:387-430 | Rolls a reviewed, approved or applied record back |
| ApprovalEngine.ApprovalWorkflowEngine.FailRemediation | backend/scanners/approval_workflow.py:432-472 | Fails any stored record |
| SbomClosure.CollectPythonDependencies | scripts/generate_sbom.py:68-137 | Terminates on every finite registry and records exactly the packages reachable from the declared ones, each once, with exactly their dependencies, none outside the closure |
| SbomClosure.QueueRequirements | scripts/generate_sbom.py:99-108 | Collects what counts as a dependency and queues whatever is not yet recorded |
| SbomClosure.DependencyIff | scripts/generate_sbom.py:99-110 | A package depends on another if and only if it is installed and requires it by name, outside extras, and is not that package itself |
| SbomClosure.SortedSetListing | scripts/generate_sbom.py:110 | Dependencies are listed in ascending order, each once |
| SbomClosure.RecordedAsInstalled | scripts/generate_sbom.py:111-135 | A recorded component carries the installed version, or 1.0.0 when nothing is installed, is direct if and only if declared, and is read back from its package URL by the online scanner when safe to print |
| SbomClosure.ClosedHoldsPaths | scripts/generate_sbom.py:73-108 | A set that holds the roots and is closed under dependencies holds the end of every dependency path |
| SbomClosure.PythonDependencies | scripts/generate_sbom.py:316-327 | One entry per component with children, in component order |
| SbomClosure.ReferencesComplete | scripts/generate_sbom.py:258-327 | On the worklist's results, an entry is in the section if and only if it lists, for a recorded package with dependencies, exactly those, sorted, by their components' references |
| SbomClosure.ReferencesExist | scripts/generate_sbom.py:258-327 | Every reference in the section, on either side, is that of an emitted component |
| Purl.OnlineRoundTrip | scripts/scan_vulnerabilities.py:399-428 | The online parser recovers a printed PyPI or npm package if and only if the name is not empty, has no `@` beyond a scope, the version has no `#`, and no `pkg:` is embedded |
| Purl.OfflineRoundTrip | scripts/scan_vulnerabilities.py:646-656 | The offline parser does if and only if the version has no `@` or `#` and no `pkg:` is embedded |
| Purl.OnlineReadsIff | scripts/scan_vulnerabilities.py:399-428 | The online parser reads a reference if and only if it is a PyPI or npm one with a version |
| Purl.OfflineReads | scripts/scan_vulnerabilities.py:646-656 | The offline parser reads any ecosystem, and a missing version as "unknown" |
| Purl.ParsersAgreeIff | scripts/scan_vulnerabilities.py:399-656 | The two parsers agree on a printed package if and only if, past the `@` of a scope, exactly one `@` is left in name and version once embedded markers are dropped |
| Purl.ParsersAgree | scripts/scan_vulnerabilities.py:399-656 | In particular they agree where both round trips hold |
| VulnerabilityScan.QueryOsvBatch | scripts/scan_vulnerabilities.py:286-374 | All chunks of fifty are answered in full and every result stands at its query's position, or there are no results and the status is that of the first failing chunk |
| VulnerabilityScan.ChunksCover | scripts/scan_vulnerabilities.py:286-374 | The chunks are non-empty, at most fifty long, and joined they are the queries |
| VulnerabilityScan.FailureIff | scripts/scan_vulnerabilities.py:286-374 | Only an answer of the right length succeeds; the service counts as unavailable if and only if it timed out, could not be reached or answered with a 5xx code |
| VulnerabilityScan.AlignedService | scripts/scan_vulnerabilities.py:286-374 | Against a service that judges queries one by one, result i is the judgement of query i |
| VulnerabilityScan.ScanSbom | scripts/scan_vulnerabilities.py:376-467 | Succeeds if and only if the document yields queries, or has no components, and no chunk fails; then the findings are, in order, the answers attributed to the packages queried at their positions |
| VulnerabilityScan.SbomFindingsExact | scripts/scan_vulnerabilities.py:396-467 | An advisory is reported for a package if and only if some component's package URL reads as that package and the service lists the advisory for it |
| OfflineScan.CheckPackages | scripts/scan_vulnerabilities.py:192-252 | Every package is either covered, with exactly the advisories that affect it, or listed as uncovered |
| OfflineScan.ReportNames | scripts/scan_vulnerabilities.py:208-232 | Covered are exactly the stripped names that are indexed, uncovered exactly those that are not |
| OfflineScan.MatchesIff | scripts/scan_vulnerabilities.py:208-232 | An advisory matches a package if and only if some entry filed under the stripped, lower-case name carries it and affects the stripped version |
| OfflineScan.UniqueRepresents | scripts/scan_vulnerabilities.py:696-703 | Case-insensitive deduplication hides neither an unindexed package nor an advisory |
| OfflineScan.UniqueDistinct | scripts/scan_vulnerabilities.py:696-703 | No package is queried twice |
| OfflineScan.ScanOffline | scripts/scan_vulnerabilities.py:623-747 | Status, report and coverage are those of the deduplicated packages read off the components' package URLs and the lock files |
| OfflineScan.StatusOf | scripts/scan_vulnerabilities.py:719-731 | The status follows from invalid inputs, missing packages and matches, in this order; the rounded percentage never decides |
| OfflineScan.OfflineCleanIff | scripts/scan_vulnerabilities.py:640-731 | The scan is CLEAN if and only if no input was invalid, every component whose package URL can be read is indexed and hit by no entry of the snapshot, and so is every locked package |
| OfflineScan.UnreadableIff | scripts/scan_vulnerabilities.py:645-650 | A package URL is passed over if and only if it lacks the scheme or has no slash after the ecosystem |
| OfflineScan.CleanWithoutLookupIff | scripts/scan_vulnerabilities.py:640-731 | The scan is CLEAN with some component not looked up if and only if some package URL cannot be read and everything else is spotless |
| OfflineScan.UnreadableDocumentPasses | scripts/scan_vulnerabilities.py:640-731 | A document with no readable component is CLEAN and passes the gate under every setting, while the online scan refuses it |
| OfflineScan.RoundedCoverageHidesGap | scripts/scan_vulnerabilities.py:238-241 | With some packages missing the rounded coverage reads 100.00 when they are fewer than one in 20000, less when they are more, and either at exactly that share |
| OfflineScan.OfflineGateIff | scripts/scan_vulnerabilities.py:117-156 | After an offline scan the gate opens if and only if no input was invalid, and every package read off a component or a lock file is indexed and hit by no entry whose advisory the settings bar |
| ScanGate.CountSevereZero | scripts/scan_vulnerabilities.py:142-152 | No finding is counted against the threshold if and only if none reaches it |
| ScanGate.GateIff | scripts/scan_vulnerabilities.py:117-156 | On a CLEAN or VULNERABLE result the gate opens if and only if no finding is barred by its settings |
| OnlineScan.Conclude | scripts/scan_vulnerabilities.py:764-845 | The status by priority over all targets, and the findings deduplicated by package name and advisory |
| OnlineScan.StatusPriority | scripts/scan_vulnerabilities.py:835-845 | INVALID_INPUT before SCAN_UNAVAILABLE before SCAN_ERROR, and CLEAN if and only if all targets answered without findings |
| OnlineScan.FirstSeenMember | scripts/scan_vulnerabilities.py:826-833 | Deduplication keeps exactly the findings that are the first with their package name and advisory |
| OnlineScan.OnlineGateIff | scripts/scan_vulnerabilities.py:117-156 | After an online scan the gate opens if and only if every target answered and no finding that is the first with its package and advisory is barred |
| OnlineScan.GateMisledIff | scripts/scan_vulnerabilities.py:826-845 | The gate opens although some finding is barred if and only if every target answered and each barred finding follows a milder report of the same advisory on the same package |
| OnlineScan.FirstReportPrevails | scripts/scan_vulnerabilities.py:826-833 | Of a milder and a severe report of one advisory the first decides the gate |
| OnlineScan.ScanDocument | scripts/scan_vulnerabilities.py:749-845 | Scanning a document alone gives the status and the deduplicated findings of its report: findings in query order, or the class of the first failure |
| OnlineScan.DocumentStatus | scripts/scan_vulnerabilities.py:376-445 | A document without anything to query is INVALID_INPUT, and otherwise the status is that of the first chunk that failed |
| OnlineScan.DocumentGateIff | scripts/scan_vulnerabilities.py:376-467 | The gate opens after the scan of a document if and only if some package URL can be queried, or there are none, all chunks are answered in full, and no first finding is barred |
| OnlineScan.PassesUnqueriedIff | scripts/scan_vulnerabilities.py:396-428 | It opens with a component never queried if and only if one cannot be queried, another can, all chunks are answered and no first finding is barred |
| OnlineScan.DocumentFindingsExact | scripts/scan_vulnerabilities.py:396-467 | Against a service that judges packages one by one, a finding enters the gate if and only if some component reads as its package and the service lists its advisory for it |
| CbomDiff.Normalize | backend/scanners/cbom_io.py:143-187 | Deduplicates by reference or, without one, by name |
| CbomDiff.NormalizedKeepsFirst | backend/scanners/cbom_io.py:143-187 | For every key, normalization keeps the first component with it |
| CbomDiff.ExtractComponentMap | backend/scanners/cbom_diff.py:43-74 | The asset map of the normalized, assessed document |
| CbomDiff.NoAssetLostIff | backend/scanners/cbom_diff.py:43-74 | The map loses no asset of the normalized document if and only if, among the components that are the first with their key, none without a reference meets another one that has none or is called "unknown" |
| CbomDiff.ReferencedKeepsAll | backend/scanners/cbom_diff.py:43-74 | A document whose components all carry references loses none: every reference is in the map |
| CbomDiff.FiledAsIs | backend/scanners/cbom_diff.py:43-74 | In such a document each kept component is filed under its own reference with its own name, algorithm, key size, reachability and location |
| CbomDiff.AssessMeans | backend/scanners/cbom_io.py:210-264 | Which algorithm names and key sizes make an asset CRITICAL, HIGH, MEDIUM or quantum-vulnerable, and under which profile that is a violation or a warning |
| CbomDiff.Compare | backend/scanners/cbom_diff.py:102-202 | UNCHANGED if and only if both documents have the asset and it is equal but for display name and type; NEW and REMOVED if and only if one side lacks it; POLICY_CHANGED if and only if it is equal but for those and the policy status; the other two likewise, and the item carries both assets |
| CbomDiff.DiffMaps | backend/scanners/cbom_diff.py:87-202 | One item per reference of either map, sorted, and counters that agree with the items |
| CbomDiff.DiffCboms | backend/scanners/cbom_diff.py:77-212 | The same for two documents under one profile, with both totals |
| CbomDiff.DiffConserves | backend/scanners/cbom_diff.py:90-212 | The baseline total is all items but the NEW ones, the current total all but the REMOVED ones |
| CbomDiff.ItemsRebuildMaps | backend/scanners/cbom_diff.py:90-202 | Both maps can be read back from the items, entry for entry |
| CbomDiff.SwapMirrors | backend/scanners/cbom_diff.py:90-202 | Exchanging the documents exchanges NEW with REMOVED and the two sides, item by item, and keeps every other class |
| CbomDiff.SelfDiffUnchanged | backend/scanners/cbom_diff.py:150-202 | A document compared with itself is all UNCHANGED |
| CbomDiff.RiskAndPolicyChangesUnreachable | backend/scanners/cbom_diff.py:167-187 | No comparison of two documents reports RISK_CHANGED or POLICY_CHANGED |
| CryptoAgility.CalculateCryptoAgility | backend/scanners/crypto_agility.py:109-172 | The two loops compute the clamped, rounded sum of the rounded contributions, and its tier |
| CryptoAgility.PointsError | backend/scanners/crypto_agility.py:140-141 | Rounding weight and contribution costs a dimension at most one hundredth |
| CryptoAgility.ScoreAccuracy | backend/scanners/crypto_agility.py:137-171 | The score lies in [0, 100] and within 0.15 of the exact, clamped value, for any weights |
| CryptoAgility.ExactIsWeightedMean | backend/scanners/crypto_agility.py:133-141 | The exact value is the sum of scores times weights over the total weight |
| CryptoAgility.ExactWithoutTotal | backend/scanners/crypto_agility.py:133-141 | When the weights have no positive total they count as percentages as they are |
| CryptoAgility.MeanInRange | backend/scanners/crypto_agility.py:109-171 | With weights that are not negative and not all zero the exact mean needs no clamping and the score is within 0.15 of it |
| CryptoAgility.ScoreMonotone | backend/scanners/crypto_agility.py:78-171 | Raising raw scores never lowers the score or its maturity tier |
| CryptoAgility.TierBands | backend/scanners/crypto_agility.py:78-88 | The tiers begin at 25, 50, 75 and 90 |

## Left out

Taken as given, or turned into parameters:

- SHA-256, HMAC and JSON encoding: uninterpreted functions (`Hasher`). Where collisions matter, the statements name them.
- Clocks, generated ids and UUIDs: inputs of each call.
- The JSON schema of policies: a verdict on the document, with the version pattern's consequence that versions are not empty.
- Category normalization and the table of categories and environments that need sign-off: an arbitrary predicate.
- Violations of a rule by an asset, asset patterns and scopes: arbitrary predicates (`Matching`).
- Which versions an advisory affects: an arbitrary predicate; the code compares versions as text.
- The HTTP exchange behind a batch query: an arbitrary function from chunk to response.
- Python's `round`: any monotone rounding to multiples of the unit that is off by at most half of it. Numbers are exact reals; binary floating point is not modelled.
- Lower-casing and blank stripping: ASCII only.

Not part of the models:

- GovernanceController.PolicySecurityController.CreateDraft: the stored policy document and the timestamps of a version are not part of the state; no modelled call reads them, only a sandbox evaluation reads the document back.
- Testing a policy against sample assets and verifying a signed bundle.
- Approval records: description, finding id, target file and patch text; reading and listing records; role and free-text comments of review and approval are not hashed by the code and nothing is claimed about them.
- Bills of materials: the iteration order of the library's sorted sets, timestamps, the analysis-source property and classification metadata. Occurrences on file components differ between the two builders by design and are not compared. The network, binary, runtime and hybrid builders, serialization and schema validation.
- PatchTransformer.PythonCryptoTransformer.Visit: stated for trees in which no assignable field belongs to two places, which is what parsing yields; the visitor's return value, which is always the visited node, is left out.
- Parsing and printing of source text, positions within a line, and the JavaScript and configuration patchers.
- PolicyEngine.Evaluate: the lists of applied and expired exceptions, per-rule texts and the `passed` flag are not part of the summary.
- SbomClosure.PythonDependencies: the entries of the root and of the three subsystems, licences, repository URLs and npm lock files are left out; they only add list concatenations.
- VulnerabilityScan.ScanSbom: findings are without descriptive texts and without the lookup of the component's package URL.
- Reading inputs from files and `npm audit`: what they yield is given, as package URLs, locked packages or reports.
- CbomDiff.Normalize: redaction and normalization of the other fields; components arrive with algorithm, key size, reachability and location extracted.
- Texts: change descriptions, disclaimers, executive summaries, quick wins, recommendations and reports.
- The evaluation of the single agility dimensions from findings: substring checks and clamped additions.
- The hardening auditors, release and quality gates, migration planner, evidence generators, frontend and probes: orchestration with no deep property.
