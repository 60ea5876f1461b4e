/**
 The policy evaluator (backend/scanners/policy_engine.py): rules against assets with exceptions
 and deadlines, and the summary whose digest is meant to be reproducible.
 */
module PolicyEngine {
  import opened Common
  import opened Sorting

  /** Final actions and verdicts, from the weakest to the strongest. */
  datatype Verdict = Allow | Excepted | Warn | Block

  /** Instants are integers.  `checks` stands for the scope and the technical checks of the rule. */
  datatype Rule = Rule(id: string, action: Verdict, deprecation: Option<int>, enforcement: Option<int>, checks: string)

  datatype Asset = Asset(id: string, facts: string)

  datatype ExceptionStatus = ApprovedException | ExpiredException | OtherStatus(text: string)

  datatype PolicyException = PolicyException(
    id: string, ruleId: string, assetId: string, status: ExceptionStatus,
    validFrom: Option<int>, expiresAt: Option<int>, scope: string)

  /** The matching the model leaves abstract: violations of a rule, asset patterns and scopes. */
  datatype Matching = Matching(
    violations: (Rule, Asset) -> seq<string>,
    idMatches: (string, string) -> bool,
    inScope: (string, Asset) -> bool)

  datatype Note = HasExpiredStatus(id: string) | NotYetValid(id: string, starts: int) | ExpiredOn(id: string, date: int)

  function Rank(v: Verdict): nat {
    match v
    case Allow => 0
    case Excepted => 1
    case Warn => 2
    case Block => 3
  }

  // ----- Exceptions -----

  /** The exception ends the search: it addresses this rule and asset and is approved or expired. */
  predicate Decisive(m: Matching, rule: Rule, asset: Asset, exc: PolicyException) {
    && (exc.ruleId == "*" || exc.ruleId == rule.id)
    && (exc.assetId == "*" || m.idMatches(asset.id, exc.assetId))
    && m.inScope(exc.scope, asset)
    && !exc.status.OtherStatus?
  }

  /** What a decisive exception decides at time `t`. */
  function Decide(exc: PolicyException, t: int): (Option<PolicyException>, Option<Note>) {
    if exc.status.ExpiredException? then (None, Some(HasExpiredStatus(exc.id)))
    else if exc.validFrom.Some? && t < exc.validFrom.value then (None, Some(NotYetValid(exc.id, exc.validFrom.value)))
    else if exc.expiresAt.Some? && t > exc.expiresAt.value then (None, Some(ExpiredOn(exc.id, exc.expiresAt.value)))
    else (Some(exc), None)
  }

  /** The exception is approved, and `t` lies between its dates, both included, where it has them. */
  predicate Grants(exc: PolicyException, t: int) {
    && exc.status.ApprovedException?
    && (exc.validFrom.Some? ==> exc.validFrom.value <= t)
    && (exc.expiresAt.Some? ==> t <= exc.expiresAt.value)
  }

  /** The exception is for this rule, or any; for this asset, or any; and for where the asset is used. */
  predicate Applies(m: Matching, rule: Rule, asset: Asset, exc: PolicyException) {
    exc.ruleId in ["*", rule.id] && (exc.assetId != "*" ==> m.idMatches(asset.id, exc.assetId))
    && m.inScope(exc.scope, asset)
  }

  /** The search stops at an exception exactly when it applies and is approved or expired; it grants by its dates. */
  lemma DecisiveGrants(m: Matching, rule: Rule, asset: Asset, exc: PolicyException, t: int)
    ensures Decisive(m, rule, asset, exc) <==>
            Applies(m, rule, asset, exc) && (exc.status == ApprovedException || exc.status == ExpiredException)
    ensures Decisive(m, rule, asset, exc) ==> (Decide(exc, t).0 == Some(exc) <==> Grants(exc, t))
    ensures Decisive(m, rule, asset, exc) ==> (Decide(exc, t).0 == None <==> !Grants(exc, t))
  {
  }

  /** The first decisive exception decides; without one nothing is granted. */
  function Search(m: Matching, rule: Rule, asset: Asset, excs: seq<PolicyException>, t: int)
    : (Option<PolicyException>, Option<Note>)
  {
    if excs == [] then (None, None)
    else if Decisive(m, rule, asset, excs[0]) then Decide(excs[0], t)
    else Search(m, rule, asset, excs[1..], t)
  }

  method FindMatchingException(m: Matching, rule: Rule, asset: Asset, excs: seq<PolicyException>, t: int)
    returns (found: Option<PolicyException>, note: Option<Note>)
    ensures (found, note) == Search(m, rule, asset, excs, t)
    ensures found.Some? ==> found.value in excs && Applies(m, rule, asset, found.value) && Grants(found.value, t)
  {
    for i := 0 to |excs|
      invariant Search(m, rule, asset, excs, t) == Search(m, rule, asset, excs[i..], t)
    {
      var exc := excs[i];
      if exc.ruleId != "*" && exc.ruleId != rule.id { continue; }
      if exc.assetId != "*" && !m.idMatches(asset.id, exc.assetId) { continue; }
      if !m.inScope(exc.scope, asset) { continue; }
      if exc.status.ExpiredException? { return None, Some(HasExpiredStatus(exc.id)); }
      if !exc.status.ApprovedException? { continue; }
      if exc.validFrom.Some? && t < exc.validFrom.value { return None, Some(NotYetValid(exc.id, exc.validFrom.value)); }
      if exc.expiresAt.Some? && t > exc.expiresAt.value { return None, Some(ExpiredOn(exc.id, exc.expiresAt.value)); }
      return Some(exc), None;
    }
    return None, None;
  }

  // ----- Actions and verdicts -----

  /** The action of a violated rule at time `t`: softened before deprecation, escalated from enforcement on. */
  function RawAction(rule: Rule, t: int): Verdict {
    if rule.deprecation.Some? && t < rule.deprecation.value then Warn
    else if rule.enforcement.Some? && t >= rule.enforcement.value then Block
    else rule.action
  }

  /** What a rule contributes to an asset's verdict, if it is violated at all. */
  function FinalAction(m: Matching, rule: Rule, asset: Asset, excs: seq<PolicyException>, t: int): Option<Verdict> {
    if m.violations(rule, asset) == [] then None
    else if Search(m, rule, asset, excs, t).0.Some? then Some(Excepted)
    else Some(RawAction(rule, t))
  }

  function FinalActions(m: Matching, rules: seq<Rule>, asset: Asset, excs: seq<PolicyException>, t: int): seq<Verdict> {
    if rules == [] then []
    else
      var last := FinalAction(m, rules[|rules| - 1], asset, excs, t);
      FinalActions(m, rules[..|rules| - 1], asset, excs, t) + if last.Some? then [last.value] else []
  }

  /** The precedence cascade BLOCK, WARN, EXCEPTION, ALLOW over a list of actions. */
  function Resolve(actions: seq<Verdict>): (v: Verdict)
    ensures forall a | a in actions :: Rank(a) <= Rank(v)
    ensures v in actions || v == Allow
  {
    if Block in actions then Block
    else if Warn in actions then Warn
    else if Excepted in actions then Excepted
    else Allow
  }

  /** BLOCK before WARN before EXCEPTION before ALLOW. */
  lemma Precedence(actions: seq<Verdict>)
    ensures Resolve(actions) == Block <==> Block in actions
    ensures Resolve(actions) == Warn <==> Warn in actions && Block !in actions
    ensures Resolve(actions) == Excepted <==> Excepted in actions && Block !in actions && Warn !in actions
  {
  }

  function AssetVerdict(m: Matching, rules: seq<Rule>, asset: Asset, excs: seq<PolicyException>, t: int): Verdict {
    Resolve(FinalActions(m, rules, asset, excs, t))
  }

  // ----- Evaluation -----

  function Text(v: Verdict): string {
    match v
    case Allow => "ALLOW"
    case Excepted => "EXCEPTION"
    case Warn => "WARN"
    case Block => "BLOCK"
  }

  /** The summary that is hashed: everything in it is a function of policy, assets and evaluation time. */
  datatype Summary = Summary(
    total: nat, verdict: Verdict, blocks: nat, warns: nat, exceptions: nat, allows: nat, lines: seq<string>)

  function RuleId(r: Rule): string { r.id }
  function AssetId(a: Asset): string { a.id }
  function ExceptionId(e: PolicyException): string { e.id }

  function Count(vs: seq<Verdict>, v: Verdict): nat {
    if vs == [] then 0 else Count(vs[..|vs| - 1], v) + if vs[|vs| - 1] == v then 1 else 0
  }

  /** The verdicts of the assets, in the order given. */
  function Verdicts(m: Matching, rules: seq<Rule>, excs: seq<PolicyException>, assets: seq<Asset>, t: int)
    : (r: seq<Verdict>)
    ensures |r| == |assets| && forall i | 0 <= i < |r| :: r[i] == AssetVerdict(m, rules, assets[i], excs, t)
  {
    seq(|assets|, i requires 0 <= i < |assets| => AssetVerdict(m, rules, assets[i], excs, t))
  }

  function Line(m: Matching, rules: seq<Rule>, excs: seq<PolicyException>, t: int, a: Asset): string {
    a.id + "=" + Text(AssetVerdict(m, rules, a, excs, t))
  }

  function Lines(m: Matching, rules: seq<Rule>, excs: seq<PolicyException>, assets: seq<Asset>, t: int)
    : (r: seq<string>)
    ensures |r| == |assets| && forall i | 0 <= i < |r| :: r[i] == Line(m, rules, excs, t, assets[i])
  {
    seq(|assets|, i requires 0 <= i < |assets| => Line(m, rules, excs, t, assets[i]))
  }

  function Summarize(verdicts: seq<Verdict>, lines: seq<string>): Summary {
    Summary(|verdicts|, Resolve(verdicts), Count(verdicts, Block), Count(verdicts, Warn), Count(verdicts, Excepted),
            Count(verdicts, Allow), SortBy(lines, Whole))
  }

  /** The evaluation of lists that are already in order. */
  function EvaluateInOrder(m: Matching, rules: seq<Rule>, excs: seq<PolicyException>, assets: seq<Asset>, t: int)
    : Summary
  {
    Summarize(Verdicts(m, rules, excs, assets, t), Lines(m, rules, excs, assets, t))
  }

  function Evaluation(m: Matching, rules: seq<Rule>, excs: seq<PolicyException>, assets: seq<Asset>, t: int): Summary {
    EvaluateInOrder(m, SortBy(rules, RuleId), SortBy(excs, ExceptionId), SortBy(assets, AssetId), t)
  }

  /** The inner loop: the rules against one asset. */
  method EvaluateAsset(m: Matching, rules: seq<Rule>, excs: seq<PolicyException>, asset: Asset, t: int)
    returns (verdict: Verdict)
    ensures verdict == AssetVerdict(m, rules, asset, excs, t)
  {
    var actions: seq<Verdict> := [];
    for j := 0 to |rules|
      invariant actions == FinalActions(m, rules[..j], asset, excs, t)
    {
      assert rules[..j + 1][..j] == rules[..j];
      if m.violations(rules[j], asset) != [] {
        var found, _ := FindMatchingException(m, rules[j], asset, excs, t);
        actions := actions + [if found.Some? then Excepted else RawAction(rules[j], t)];
      }
    }
    assert rules[..|rules|] == rules;
    verdict := Resolve(actions);
  }

  /** The outer loop, collecting verdicts and lines. */
  method EvaluateAll(m: Matching, rules: seq<Rule>, excs: seq<PolicyException>, assets: seq<Asset>, t: int)
    returns (summary: Summary)
    ensures summary == EvaluateInOrder(m, rules, excs, assets, t)
  {
    var verdicts: seq<Verdict>, lines: seq<string> := [], [];
    for i := 0 to |assets|
      invariant |verdicts| == |lines| == i
      invariant forall k | 0 <= k < i :: verdicts[k] == AssetVerdict(m, rules, assets[k], excs, t)
      invariant forall k | 0 <= k < i :: lines[k] == Line(m, rules, excs, t, assets[k])
    {
      var verdict := EvaluateAsset(m, rules, excs, assets[i], t);
      verdicts := verdicts + [verdict];
      lines := lines + [assets[i].id + "=" + Text(verdict)];
    }
    assert verdicts == Verdicts(m, rules, excs, assets, t);
    assert lines == Lines(m, rules, excs, assets, t);
    summary := Summarize(verdicts, lines);
  }

  /** `evaluate`: sorts everything by id, then evaluates. */
  method Evaluate(m: Matching, rules: seq<Rule>, excs: seq<PolicyException>, assets: seq<Asset>, t: int)
    returns (summary: Summary)
    ensures summary == Evaluation(m, rules, excs, assets, t)
  {
    summary := EvaluateAll(m, SortBy(rules, RuleId), SortBy(excs, ExceptionId), SortBy(assets, AssetId), t);
  }

  // ----- Which actions an asset's verdict comes from -----

  lemma {:induction false} FinalActionsMember(m: Matching, rules: seq<Rule>, asset: Asset,
                                              excs: seq<PolicyException>, t: int, a: Verdict)
    ensures a in FinalActions(m, rules, asset, excs, t)
       <==> exists r :: r in rules && FinalAction(m, r, asset, excs, t) == Some(a)
  {
    if rules != [] {
      var init, last := rules[..|rules| - 1], rules[|rules| - 1];
      assert rules == init + [last];
      FinalActionsMember(m, init, asset, excs, t, a);
      assert forall r :: r in rules <==> r in init || r == last;
    }
  }

  /** More rules never weaken the verdict on an asset; only membership matters, not order or repetition. */
  lemma MoreRules(m: Matching, few: seq<Rule>, many: seq<Rule>, asset: Asset, excs: seq<PolicyException>, t: int)
    requires forall r | r in few :: r in many
    ensures Rank(AssetVerdict(m, few, asset, excs, t)) <= Rank(AssetVerdict(m, many, asset, excs, t))
  {
    var v := AssetVerdict(m, few, asset, excs, t);
    if v != Allow {
      FinalActionsMember(m, few, asset, excs, t, v);
      FinalActionsMember(m, many, asset, excs, t, v);
    }
  }

  lemma RankInjective(v: Verdict, w: Verdict)
    requires Rank(v) <= Rank(w) && Rank(w) <= Rank(v)
    ensures v == w
  {
  }

  lemma {:induction false} CountIsMultiplicity(vs: seq<Verdict>, v: Verdict)
    ensures Count(vs, v) == multiset(vs)[v]
  {
    if vs != [] {
      CountIsMultiplicity(vs[..|vs| - 1], v);
      assert vs == vs[..|vs| - 1] + [vs[|vs| - 1]];
    }
  }

  /** The verdict in words, as the digest spells it. */
  predicate Spells(v: Verdict, text: string) {
    match v
    case Block => text == "BLOCK"
    case Warn => text == "WARN"
    case Excepted => text == "EXCEPTION"
    case Allow => text == "ALLOW"
  }

  lemma {:induction false} LineSpelled(m: Matching, rules: seq<Rule>, excs: seq<PolicyException>, t: int, a: Asset,
                                       text: string)
    ensures Spells(AssetVerdict(m, rules, a, excs, t), text) <==> Line(m, rules, excs, t, a) == a.id + "=" + text
  {
    var verdict := Text(AssetVerdict(m, rules, a, excs, t));
    if a.id + "=" + verdict == a.id + "=" + text {
      assert (a.id + "=" + verdict)[|a.id| + 1..] == verdict && (a.id + "=" + text)[|a.id| + 1..] == text;
    }
  }

  /** The digest has one line per asset, which spells out its id and verdict. */
  lemma DigestLists(m: Matching, rules: seq<Rule>, excs: seq<PolicyException>, assets: seq<Asset>, t: int, line: string)
    ensures |Evaluation(m, rules, excs, assets, t).lines| == |assets|
    ensures line in Evaluation(m, rules, excs, assets, t).lines <==>
            exists a :: a in assets && Line(m, SortBy(rules, RuleId), SortBy(excs, ExceptionId), t, a) == line
  {
    var rs, es, xs := SortBy(rules, RuleId), SortBy(excs, ExceptionId), SortBy(assets, AssetId);
    var write := (a: Asset) => Line(m, rs, es, t, a);
    assert Lines(m, rs, es, xs, t) == Map(write, xs);
    SameMembers(SortBy(Map(write, xs), Whole), Map(write, xs));
    SameMembers(xs, assets);
    MapMember(write, xs, line);
    assert forall a :: write(a) == Line(m, rs, es, t, a);
  }

  /** An asset that violates no rule is allowed. */
  lemma UnviolatedAllowed(m: Matching, rules: seq<Rule>, asset: Asset, excs: seq<PolicyException>, t: int)
    requires forall r | r in rules :: m.violations(r, asset) == []
    ensures AssetVerdict(m, rules, asset, excs, t) == Allow
  {
    NothingViolated(m, rules, asset, excs, t);
  }

  lemma {:induction false} NothingViolated(m: Matching, rules: seq<Rule>, asset: Asset, excs: seq<PolicyException>,
                                           t: int)
    requires forall r | r in rules :: m.violations(r, asset) == []
    ensures FinalActions(m, rules, asset, excs, t) == []
  {
    if rules != [] {
      NothingViolated(m, rules[..|rules| - 1], asset, excs, t);
    }
  }

  // ----- Accounting and monotonicity -----

  lemma {:induction false} CountsAddUp(vs: seq<Verdict>)
    ensures Count(vs, Block) + Count(vs, Warn) + Count(vs, Excepted) + Count(vs, Allow) == |vs|
  {
    if vs != [] {
      CountsAddUp(vs[..|vs| - 1]);
    }
  }

  /** The four counts of a summary partition the assets, and the verdict is BLOCK exactly when some asset is blocked. */
  lemma CountsPartitionAssets(
    m: Matching, rules: seq<Rule>, excs: seq<PolicyException>, assets: seq<Asset>, t: int)
    ensures
      var s := Evaluation(m, rules, excs, assets, t);
      && s.blocks + s.warns + s.exceptions + s.allows == s.total == |assets|
      && (s.verdict == Block <==> s.blocks > 0)
      && (s.verdict == Allow <==> s.allows == s.total)
  {
    var rs, es, xs := SortBy(rules, RuleId), SortBy(excs, ExceptionId), SortBy(assets, AssetId);
    var vs := Verdicts(m, rs, es, xs, t);
    CountsAddUp(vs);
    CountIsMultiplicity(vs, Block);
    CountIsMultiplicity(vs, Warn);
    CountIsMultiplicity(vs, Excepted);
    assert forall v: Verdict :: v in vs <==> v in multiset(vs);
  }

  lemma InOrderMonotone(m: Matching, rules: seq<Rule>, rules': seq<Rule>, excs: seq<PolicyException>,
                        assets: seq<Asset>, assets': seq<Asset>, t: int)
    requires (forall r | r in rules :: r in rules') && (forall a | a in assets :: a in assets')
    ensures Rank(EvaluateInOrder(m, rules, excs, assets, t).verdict)
         <= Rank(EvaluateInOrder(m, rules', excs, assets', t).verdict)
  {
    var vs, vs' := Verdicts(m, rules, excs, assets, t), Verdicts(m, rules', excs, assets', t);
    var v := Resolve(vs);
    if v in vs {
      var k :| 0 <= k < |vs| && vs[k] == v;
      assert assets[k] in assets';
      var j :| 0 <= j < |assets'| && assets'[j] == assets[k];
      MoreRules(m, rules, rules', assets[k], excs, t);
      assert vs'[j] in vs';
    }
  }

  /** Adding assets or rules never lowers the overall verdict. */
  lemma EvaluationMonotone(
    m: Matching, rules: seq<Rule>, rules': seq<Rule>, excs: seq<PolicyException>, assets: seq<Asset>,
    assets': seq<Asset>, t: int)
    requires (forall r | r in rules :: r in rules') && (forall a | a in assets :: a in assets')
    ensures Rank(Evaluation(m, rules, excs, assets, t).verdict) <= Rank(Evaluation(m, rules', excs, assets', t).verdict)
  {
    SameMembers(rules, SortBy(rules, RuleId));
    SameMembers(rules', SortBy(rules', RuleId));
    SameMembers(assets, SortBy(assets, AssetId));
    SameMembers(assets', SortBy(assets', AssetId));
    InOrderMonotone(m, SortBy(rules, RuleId), SortBy(rules', RuleId), SortBy(excs, ExceptionId),
                    SortBy(assets, AssetId), SortBy(assets', AssetId), t);
  }

  /** The rule's action never softens as time passes. */
  ghost predicate NeverSoftens(rule: Rule) {
    forall t: int, t': int | t <= t' :: Rank(RawAction(rule, t)) <= Rank(RawAction(rule, t'))
  }

  /**
   The deadlines only ever escalate exactly when the rule's own action is at least WARN, or it
   has no deprecation date, or enforcement starts no later than deprecation ends.
   */
  lemma EscalatesOnlyIff(rule: Rule)
    ensures NeverSoftens(rule) <==>
      || (Rank(rule.action) >= Rank(Warn))
      || rule.deprecation.None?
      || (rule.enforcement.Some? && rule.enforcement.value <= rule.deprecation.value)
  {
    if rule.deprecation.Some? {
      var d := rule.deprecation.value;
      if NeverSoftens(rule) {
        assert Rank(RawAction(rule, d - 1)) <= Rank(RawAction(rule, d));
      }
    }
  }

  /** Without exceptions and with escalating rules, the overall verdict never softens as time passes. */
  lemma VerdictNeverSoftens(m: Matching, rules: seq<Rule>, assets: seq<Asset>, t: int, t': int)
    requires t <= t' && forall r | r in rules :: NeverSoftens(r)
    ensures Rank(Evaluation(m, rules, [], assets, t).verdict) <= Rank(Evaluation(m, rules, [], assets, t').verdict)
  {
    var rs, xs := SortBy(rules, RuleId), SortBy(assets, AssetId);
    SameMembers(rules, rs);
    var vs, vs' := Verdicts(m, rs, [], xs, t), Verdicts(m, rs, [], xs, t');
    var v := Resolve(vs);
    if v in vs && v != Allow {
      var k :| 0 <= k < |vs| && vs[k] == v;
      FinalActionsMember(m, rs, xs[k], [], t, v);
      var r :| r in rs && FinalAction(m, r, xs[k], [], t) == Some(v);
      var later := RawAction(r, t');
      assert NeverSoftens(r);
      FinalActionsMember(m, rs, xs[k], [], t', later);
      assert FinalAction(m, r, xs[k], [], t') == Some(later);
      assert vs'[k] in vs';
    }
  }
}
