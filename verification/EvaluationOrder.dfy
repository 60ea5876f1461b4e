/**
 What the evaluator's result owes to the order of its inputs (backend/scanners/policy_engine.py:326-360,
 542-681): nothing to that of rules and assets, and to that of exceptions only where two of them
 contest the same decision under one id.
 */
module EvaluationOrder {
  import opened Common
  import opened Sorting
  import opened PolicyEngine

  // ----- The exception that decides -----

  /** The exception at which the search ends. */
  function Leader(m: Matching, rule: Rule, asset: Asset, excs: seq<PolicyException>): Option<PolicyException> {
    if excs == [] then None
    else if Decisive(m, rule, asset, excs[0]) then Some(excs[0])
    else Leader(m, rule, asset, excs[1..])
  }

  predicate Granted(m: Matching, rule: Rule, asset: Asset, excs: seq<PolicyException>, t: int) {
    Search(m, rule, asset, excs, t).0.Some?
  }

  lemma {:induction false} LeaderDecides(m: Matching, rule: Rule, asset: Asset, excs: seq<PolicyException>, t: int)
    ensures
      var d := Leader(m, rule, asset, excs);
      && Search(m, rule, asset, excs, t) == (if d.Some? then Decide(d.value, t) else (None, None))
      && (Granted(m, rule, asset, excs, t) <==> d.Some? && Grants(d.value, t))
  {
    if excs != [] {
      LeaderDecides(m, rule, asset, excs[1..], t);
    }
  }

  /** No decisive exception of the list has a smaller id. */
  predicate Foremost(m: Matching, rule: Rule, asset: Asset, excs: seq<PolicyException>, id: string) {
    forall z | z in excs && Decisive(m, rule, asset, z) :: Leq(id, z.id)
  }

  lemma {:induction false} LeaderFound(m: Matching, rule: Rule, asset: Asset, excs: seq<PolicyException>)
    ensures Leader(m, rule, asset, excs).None? <==> forall z | z in excs :: !Decisive(m, rule, asset, z)
    ensures Leader(m, rule, asset, excs).Some? ==>
              Leader(m, rule, asset, excs).value in excs && Decisive(m, rule, asset, Leader(m, rule, asset, excs).value)
  {
    if excs != [] {
      LeaderFound(m, rule, asset, excs[1..]);
      assert excs == [excs[0]] + excs[1..];
    }
  }

  /** Two elements of a sorted list stand in key order. */
  lemma {:induction false} SortedPair<T>(xs: seq<T>, key: T -> string, i: nat, j: nat)
    requires SortedBy(xs, key) && i <= j < |xs|
    ensures Leq(key(xs[i]), key(xs[j]))
  {
    if i == j {
      LeqTotal(key(xs[i]), key(xs[j]));
    } else if j == |xs| - 1 {
      assert xs[i] in xs[..j];
    } else {
      SortedPair(xs[..|xs| - 1], key, i, j);
    }
  }

  lemma SortedTail<T>(xs: seq<T>, key: T -> string, y: T)
    requires SortedBy(xs, key) && xs != [] && y in xs
    ensures Leq(key(xs[0]), key(y))
  {
    var j :| 0 <= j < |xs| && xs[j] == y;
    SortedPair(xs, key, 0, j);
  }

  lemma {:induction false} SortedRest<T>(xs: seq<T>, key: T -> string)
    requires SortedBy(xs, key) && xs != []
    ensures SortedBy(xs[1..], key)
  {
    var n := |xs| - 1;
    if n > 0 {
      SortedRest(xs[..n], key);
      assert xs[..n][1..] == xs[1..][..n - 1] && xs[1..][n - 1] == xs[n];
      assert forall y | y in xs[1..][..n - 1] :: y in xs[..n];
    }
  }

  /** In a sorted list the leader's id is the smallest of all decisive ones. */
  lemma {:induction false} LeaderForemost(m: Matching, rule: Rule, asset: Asset, excs: seq<PolicyException>)
    requires SortedBy(excs, ExceptionId) && Leader(m, rule, asset, excs).Some?
    ensures Foremost(m, rule, asset, excs, Leader(m, rule, asset, excs).value.id)
  {
    var d := Leader(m, rule, asset, excs).value;
    LeaderFound(m, rule, asset, excs);
    forall z | z in excs && Decisive(m, rule, asset, z) ensures Leq(d.id, z.id) {
      if Decisive(m, rule, asset, excs[0]) {
        SortedTail(excs, ExceptionId, z);
      } else {
        assert z in excs[1..];
        SortedRest(excs, ExceptionId);
        LeaderForemost(m, rule, asset, excs[1..]);
      }
    }
  }

  lemma {:induction false} WithKeyFront<T>(x: T, xs: seq<T>, key: T -> string, k: string)
    ensures WithKey([x] + xs, key, k) == (if key(x) == k then [x] else []) + WithKey(xs, key, k)
  {
    if xs == [] {
      assert [x] + xs == [x] && [x][..0] == [];
    } else {
      var n := |xs| - 1;
      assert ([x] + xs)[..n + 1] == [x] + xs[..n];
      WithKeyFront(x, xs[..n], key, k);
    }
  }

  /** The leader also leads the exceptions that share its id. */
  lemma {:induction false} LeaderAmongEquals(m: Matching, rule: Rule, asset: Asset, excs: seq<PolicyException>)
    requires Leader(m, rule, asset, excs).Some?
    ensures
      var d := Leader(m, rule, asset, excs);
      Leader(m, rule, asset, WithKey(excs, ExceptionId, d.value.id)) == d
  {
    var d := Leader(m, rule, asset, excs).value;
    assert excs == [excs[0]] + excs[1..];
    WithKeyFront(excs[0], excs[1..], ExceptionId, d.id);
    if !Decisive(m, rule, asset, excs[0]) {
      LeaderAmongEquals(m, rule, asset, excs[1..]);
      var rest := WithKey(excs[1..], ExceptionId, d.id);
      assert ([excs[0]] + rest)[1..] == rest;
      assert [] + rest == rest;
    } else {
      assert WithKey(excs, ExceptionId, d.id)[0] == d;
    }
  }

  lemma SortKeepsForemost(m: Matching, rule: Rule, asset: Asset, excs: seq<PolicyException>, id: string)
    ensures Foremost(m, rule, asset, SortBy(excs, ExceptionId), id) <==> Foremost(m, rule, asset, excs, id)
  {
    SameMembers(SortBy(excs, ExceptionId), excs);
  }

  /** After sorting, the leader is a decisive exception with the smallest id there is. */
  lemma SortedLeader(m: Matching, rule: Rule, asset: Asset, excs: seq<PolicyException>)
    ensures
      var d := Leader(m, rule, asset, SortBy(excs, ExceptionId));
      && (d.None? <==> forall z | z in excs :: !Decisive(m, rule, asset, z))
      && (d.Some? ==> d.value in excs && Decisive(m, rule, asset, d.value)
                      && Foremost(m, rule, asset, excs, d.value.id))
  {
    var sorted := SortBy(excs, ExceptionId);
    SortBySorted(excs, ExceptionId);
    SameMembers(sorted, excs);
    LeaderFound(m, rule, asset, sorted);
    if Leader(m, rule, asset, sorted).Some? {
      LeaderForemost(m, rule, asset, sorted);
      SortKeepsForemost(m, rule, asset, excs, Leader(m, rule, asset, sorted).value.id);
    }
  }

  /** Among exceptions of the smallest id, the one listed first in the document leads. */
  lemma HeadLeads(m: Matching, rule: Rule, asset: Asset, x: PolicyException, rest: seq<PolicyException>)
    requires Decisive(m, rule, asset, x) && Foremost(m, rule, asset, [x] + rest, x.id)
    ensures Leader(m, rule, asset, SortBy([x] + rest, ExceptionId)) == Some(x)
  {
    var listed := [x] + rest;
    var sorted := SortBy(listed, ExceptionId);
    assert x in listed;
    SortedLeader(m, rule, asset, listed);
    var d := Leader(m, rule, asset, sorted).value;
    LeqAntisymmetric(d.id, x.id);
    LeaderAmongEquals(m, rule, asset, sorted);
    SortStable(listed, ExceptionId, x.id);
    WithKeyFront(x, rest, ExceptionId, x.id);
    assert WithKey(listed, ExceptionId, x.id)[0] == x;
  }

  // ----- When the order of exceptions matters -----

  /**
   Two decisive exceptions share the smallest id of all decisive ones, and exactly one of them
   grants: whichever the document lists first prevails.
   */
  ghost predicate Contested(m: Matching, rule: Rule, asset: Asset, excs: seq<PolicyException>, t: int) {
    exists x, y :: x in excs && y in excs && Contest(m, rule, asset, excs, t, x, y)
  }

  ghost predicate Contest(m: Matching, rule: Rule, asset: Asset, excs: seq<PolicyException>, t: int,
                          x: PolicyException, y: PolicyException)
  {
    && Decisive(m, rule, asset, x) && Decisive(m, rule, asset, y) && x.id == y.id
    && Grants(x, t) && !Grants(y, t) && Foremost(m, rule, asset, excs, x.id)
  }

  /** No rearrangement of the exceptions changes whether the pair is granted one. */
  ghost predicate GrantForgetsOrder(m: Matching, rule: Rule, asset: Asset, excs: seq<PolicyException>, t: int) {
    forall ys: seq<PolicyException> | multiset(ys) == multiset(excs) ::
      Granted(m, rule, asset, SortBy(ys, ExceptionId), t) <==> Granted(m, rule, asset, SortBy(excs, ExceptionId), t)
  }

  lemma UncontestedGrant(m: Matching, rule: Rule, asset: Asset, excs: seq<PolicyException>,
                         ys: seq<PolicyException>, t: int)
    requires !Contested(m, rule, asset, excs, t) && multiset(ys) == multiset(excs)
    ensures Granted(m, rule, asset, SortBy(ys, ExceptionId), t)
       <==> Granted(m, rule, asset, SortBy(excs, ExceptionId), t)
  {
    SameMembers(ys, excs);
    SortedLeader(m, rule, asset, ys);
    SortedLeader(m, rule, asset, excs);
    var d, e := Leader(m, rule, asset, SortBy(ys, ExceptionId)), Leader(m, rule, asset, SortBy(excs, ExceptionId));
    LeaderDecides(m, rule, asset, SortBy(ys, ExceptionId), t);
    LeaderDecides(m, rule, asset, SortBy(excs, ExceptionId), t);
    if d.Some? {
      LeqAntisymmetric(d.value.id, e.value.id);
      assert !Contest(m, rule, asset, excs, t, d.value, e.value) && !Contest(m, rule, asset, excs, t, e.value, d.value);
    }
  }

  /** A contested pair is granted an exception in one order of the document and refused it in another. */
  lemma ContestedGrant(m: Matching, rule: Rule, asset: Asset, excs: seq<PolicyException>, t: int)
    returns (granting: seq<PolicyException>, refusing: seq<PolicyException>)
    requires Contested(m, rule, asset, excs, t)
    ensures multiset(granting) == multiset(excs) && multiset(refusing) == multiset(excs)
    ensures Granted(m, rule, asset, SortBy(granting, ExceptionId), t)
    ensures !Granted(m, rule, asset, SortBy(refusing, ExceptionId), t)
  {
    var x, y :| x in excs && y in excs && Contest(m, rule, asset, excs, t, x, y);
    granting := Fronted(m, rule, asset, excs, x, t);
    refusing := Fronted(m, rule, asset, excs, y, t);
  }

  /** Listing a decisive exception of the smallest id first makes it the one that decides. */
  lemma Fronted(m: Matching, rule: Rule, asset: Asset, excs: seq<PolicyException>, x: PolicyException, t: int)
    returns (ys: seq<PolicyException>)
    requires x in excs && Decisive(m, rule, asset, x) && Foremost(m, rule, asset, excs, x.id)
    ensures multiset(ys) == multiset(excs)
    ensures Granted(m, rule, asset, SortBy(ys, ExceptionId), t) <==> Grants(x, t)
  {
    var rest := Without(excs, x);
    ys := [x] + rest;
    assert multiset(ys) == multiset(excs);
    SameMembers(ys, excs);
    HeadLeads(m, rule, asset, x, rest);
    LeaderDecides(m, rule, asset, SortBy(ys, ExceptionId), t);
  }

  /** Whether a pair is granted an exception is independent of their order exactly when the pair is not contested. */
  lemma GrantForgetsOrderIff(m: Matching, rule: Rule, asset: Asset, excs: seq<PolicyException>, t: int)
    ensures GrantForgetsOrder(m, rule, asset, excs, t) <==> !Contested(m, rule, asset, excs, t)
  {
    if Contested(m, rule, asset, excs, t) {
      var granting, refusing := ContestedGrant(m, rule, asset, excs, t);
    } else {
      forall ys: seq<PolicyException> | multiset(ys) == multiset(excs)
        ensures Granted(m, rule, asset, SortBy(ys, ExceptionId), t)
           <==> Granted(m, rule, asset, SortBy(excs, ExceptionId), t)
      {
        UncontestedGrant(m, rule, asset, excs, ys, t);
      }
    }
  }

  /** Some exception applies to the pair and grants. */
  ghost predicate HasGrant(m: Matching, rule: Rule, asset: Asset, excs: seq<PolicyException>, t: int) {
    exists x :: x in excs && Applies(m, rule, asset, x) && Grants(x, t)
  }

  /** The exception is marked expired, or approved and past its expiry date, or approved and not yet valid. */
  predicate OutOfDate(exc: PolicyException, t: int) {
    || exc.status.ExpiredException?
    || (exc.status.ApprovedException? && exc.expiresAt.Some? && exc.expiresAt.value < t)
    || (exc.status.ApprovedException? && exc.validFrom.Some? && t < exc.validFrom.value)
  }

  /** No exception that applies and is approved or marked expired has a smaller id. */
  predicate ComesFirst(m: Matching, rule: Rule, asset: Asset, excs: seq<PolicyException>, id: string) {
    forall z | z in excs && Applies(m, rule, asset, z) && !z.status.OtherStatus? :: Leq(id, z.id)
  }

  /**
   An exception that applies and grants is of no use exactly when one that is expired or not yet
   valid comes before it by id: the search ends there, and ids, not dates, decide.
   */
  lemma GrantIgnoredIff(m: Matching, rule: Rule, asset: Asset, excs: seq<PolicyException>, t: int)
    requires HasGrant(m, rule, asset, excs, t) && !Contested(m, rule, asset, excs, t)
    ensures !Granted(m, rule, asset, SortBy(excs, ExceptionId), t) <==>
            exists y :: y in excs && Applies(m, rule, asset, y) && OutOfDate(y, t)
                        && ComesFirst(m, rule, asset, excs, y.id)
  {
    var sorted := SortBy(excs, ExceptionId);
    SortedLeader(m, rule, asset, excs);
    LeaderDecides(m, rule, asset, sorted, t);
    var x :| x in excs && Applies(m, rule, asset, x) && Grants(x, t);
    DecisiveGrants(m, rule, asset, x, t);
    var d := Leader(m, rule, asset, sorted).value;
    DecisiveGrants(m, rule, asset, d, t);
    if !Grants(d, t) {
      assert OutOfDate(d, t) && ComesFirst(m, rule, asset, excs, d.id);
    }
    if y :| y in excs && Applies(m, rule, asset, y) && OutOfDate(y, t) && ComesFirst(m, rule, asset, excs, y.id) {
      DecisiveGrants(m, rule, asset, y, t);
      LeqAntisymmetric(d.id, y.id);
      assert !Contest(m, rule, asset, excs, t, d, y);
    }
  }

  // ----- From decisions to the summary -----

  /** The order of the exceptions can only matter to a violated rule that would do something other than except. */
  ghost predicate Exposed(m: Matching, rule: Rule, asset: Asset, excs: seq<PolicyException>, t: int) {
    m.violations(rule, asset) != [] && RawAction(rule, t) != Excepted && Contested(m, rule, asset, excs, t)
  }

  ghost predicate ActionsForgetOrder(m: Matching, rules: seq<Rule>, excs: seq<PolicyException>, assets: seq<Asset>,
                                     t: int)
  {
    forall ys: seq<PolicyException>, r, a | multiset(ys) == multiset(excs) && r in rules && a in assets ::
      FinalAction(m, r, a, SortBy(ys, ExceptionId), t) == FinalAction(m, r, a, SortBy(excs, ExceptionId), t)
  }

  /** No violated rule's decision is contested. */
  ghost predicate Uncontested(m: Matching, rules: seq<Rule>, excs: seq<PolicyException>, assets: seq<Asset>, t: int) {
    forall r, a | r in rules && a in assets :: !Exposed(m, r, a, excs, t)
  }

  /** A final action depends on the exceptions only through whether one is granted. */
  lemma ActionByGrant(m: Matching, rule: Rule, asset: Asset, es: seq<PolicyException>, es': seq<PolicyException>,
                      t: int)
    requires m.violations(rule, asset) != [] && RawAction(rule, t) != Excepted
    ensures FinalAction(m, rule, asset, es, t) == FinalAction(m, rule, asset, es', t)
       <==> (Granted(m, rule, asset, es, t) <==> Granted(m, rule, asset, es', t))
  {
  }

  lemma ActionUnexposed(m: Matching, rule: Rule, asset: Asset, excs: seq<PolicyException>, ys: seq<PolicyException>,
                        t: int)
    requires !Exposed(m, rule, asset, excs, t) && multiset(ys) == multiset(excs)
    ensures FinalAction(m, rule, asset, SortBy(ys, ExceptionId), t)
         == FinalAction(m, rule, asset, SortBy(excs, ExceptionId), t)
  {
    if m.violations(rule, asset) != [] && RawAction(rule, t) != Excepted {
      UncontestedGrant(m, rule, asset, excs, ys, t);
      ActionByGrant(m, rule, asset, SortBy(ys, ExceptionId), SortBy(excs, ExceptionId), t);
    }
  }

  lemma ExposedDiffers(m: Matching, rules: seq<Rule>, excs: seq<PolicyException>, assets: seq<Asset>, t: int,
                       rule: Rule, asset: Asset)
    requires rule in rules && asset in assets && Exposed(m, rule, asset, excs, t)
    ensures !ActionsForgetOrder(m, rules, excs, assets, t)
  {
    var granting, refusing := ContestedGrant(m, rule, asset, excs, t);
    ActionByGrant(m, rule, asset, SortBy(granting, ExceptionId), SortBy(excs, ExceptionId), t);
    ActionByGrant(m, rule, asset, SortBy(refusing, ExceptionId), SortBy(excs, ExceptionId), t);
  }

  /**
   The final actions of all rules on all assets are independent of the order of the exceptions
   exactly when no violated rule's decision is contested.
   */
  lemma ActionsForgetOrderIff(m: Matching, rules: seq<Rule>, excs: seq<PolicyException>, assets: seq<Asset>, t: int)
    ensures ActionsForgetOrder(m, rules, excs, assets, t) <==> Uncontested(m, rules, excs, assets, t)
  {
    if Uncontested(m, rules, excs, assets, t) {
      UncontestedForget(m, rules, excs, assets, t);
    } else {
      var r, a :| r in rules && a in assets && Exposed(m, r, a, excs, t);
      ExposedDiffers(m, rules, excs, assets, t, r, a);
    }
  }

  lemma UncontestedForget(m: Matching, rules: seq<Rule>, excs: seq<PolicyException>, assets: seq<Asset>, t: int)
    requires Uncontested(m, rules, excs, assets, t)
    ensures ActionsForgetOrder(m, rules, excs, assets, t)
  {
    forall ys: seq<PolicyException>, r, a | multiset(ys) == multiset(excs) && r in rules && a in assets
      ensures FinalAction(m, r, a, SortBy(ys, ExceptionId), t) == FinalAction(m, r, a, SortBy(excs, ExceptionId), t)
    {
      ActionUnexposed(m, r, a, excs, ys, t);
    }
  }

  /** Distinct ids leave nothing to contest. */
  lemma DistinctIdsUncontested(m: Matching, rules: seq<Rule>, excs: seq<PolicyException>, assets: seq<Asset>, t: int)
    requires KeyDetermines(excs, ExceptionId)
    ensures Uncontested(m, rules, excs, assets, t)
  {
  }

  lemma {:induction false} SameActions(m: Matching, rules: seq<Rule>, asset: Asset, es: seq<PolicyException>,
                                       es': seq<PolicyException>, t: int)
    requires forall r | r in rules :: FinalAction(m, r, asset, es, t) == FinalAction(m, r, asset, es', t)
    ensures FinalActions(m, rules, asset, es, t) == FinalActions(m, rules, asset, es', t)
  {
    if rules != [] {
      SameActions(m, rules[..|rules| - 1], asset, es, es', t);
    }
  }

  lemma SameVerdicts(m: Matching, rules: seq<Rule>, rules': seq<Rule>, es: seq<PolicyException>,
                     es': seq<PolicyException>, assets: seq<Asset>, t: int)
    requires forall a | a in assets :: AssetVerdict(m, rules, a, es, t) == AssetVerdict(m, rules', a, es', t)
    ensures EvaluateInOrder(m, rules, es, assets, t) == EvaluateInOrder(m, rules', es', assets, t)
  {
    assert Verdicts(m, rules, es, assets, t) == Verdicts(m, rules', es', assets, t);
    assert Lines(m, rules, es, assets, t) == Lines(m, rules', es', assets, t);
  }

  // ----- Rules and assets -----

  lemma RuleOrder(m: Matching, a: seq<Rule>, b: seq<Rule>, asset: Asset, excs: seq<PolicyException>, t: int)
    requires multiset(a) == multiset(b)
    ensures AssetVerdict(m, a, asset, excs, t) == AssetVerdict(m, b, asset, excs, t)
  {
    SameMembers(a, b);
    MoreRules(m, a, b, asset, excs, t);
    MoreRules(m, b, a, asset, excs, t);
    RankInjective(AssetVerdict(m, a, asset, excs, t), AssetVerdict(m, b, asset, excs, t));
  }

  lemma SummarizeOrder(v: seq<Verdict>, w: seq<Verdict>, l: seq<string>, k: seq<string>)
    requires multiset(v) == multiset(w) && multiset(l) == multiset(k)
    ensures Summarize(v, l) == Summarize(w, k)
  {
    SameMembers(v, w);
    RankInjective(Resolve(v), Resolve(w));
    SortOrderIndependent(l, k, Whole);
    forall x: Verdict ensures Count(v, x) == Count(w, x) {
      CountIsMultiplicity(v, x);
      CountIsMultiplicity(w, x);
    }
  }

  lemma AssetOrder(m: Matching, rules: seq<Rule>, excs: seq<PolicyException>, a: seq<Asset>, b: seq<Asset>, t: int)
    requires multiset(a) == multiset(b)
    ensures EvaluateInOrder(m, rules, excs, a, t) == EvaluateInOrder(m, rules, excs, b, t)
  {
    var verdict, line := (x: Asset) => AssetVerdict(m, rules, x, excs, t), (x: Asset) => Line(m, rules, excs, t, x);
    MapMultiset(verdict, a, b);
    MapMultiset(line, a, b);
    assert Verdicts(m, rules, excs, a, t) == Map(verdict, a) && Verdicts(m, rules, excs, b, t) == Map(verdict, b);
    assert Lines(m, rules, excs, a, t) == Map(line, a) && Lines(m, rules, excs, b, t) == Map(line, b);
    SummarizeOrder(Map(verdict, a), Map(verdict, b), Map(line, a), Map(line, b));
  }

  lemma RulesOrder(m: Matching, a: seq<Rule>, b: seq<Rule>, excs: seq<PolicyException>,
                   assets: seq<Asset>, t: int)
    requires multiset(a) == multiset(b)
    ensures EvaluateInOrder(m, a, excs, assets, t) == EvaluateInOrder(m, b, excs, assets, t)
  {
    forall x | x in assets ensures AssetVerdict(m, a, x, excs, t) == AssetVerdict(m, b, x, excs, t) {
      RuleOrder(m, a, b, x, excs, t);
    }
    SameVerdicts(m, a, b, excs, excs, assets, t);
  }

  lemma ExceptionOrder(m: Matching, rules: seq<Rule>, excs: seq<PolicyException>, excs': seq<PolicyException>,
                       assets: seq<Asset>, t: int)
    requires multiset(excs) == multiset(excs') && Uncontested(m, rules, excs, assets, t)
    ensures EvaluateInOrder(m, rules, SortBy(excs, ExceptionId), assets, t)
         == EvaluateInOrder(m, rules, SortBy(excs', ExceptionId), assets, t)
  {
    var es, es' := SortBy(excs, ExceptionId), SortBy(excs', ExceptionId);
    forall a | a in assets ensures AssetVerdict(m, rules, a, es, t) == AssetVerdict(m, rules, a, es', t) {
      forall r | r in rules ensures FinalAction(m, r, a, es, t) == FinalAction(m, r, a, es', t) {
        ActionUnexposed(m, r, a, excs, excs', t);
      }
      SameActions(m, rules, a, es, es', t);
    }
    SameVerdicts(m, rules, rules, es, es', assets, t);
  }

  /**
   Reproducibility: rearranging assets and rules, whatever their ids, and exceptions, unless a
   violated rule's decision is contested among them, leaves the whole summary unchanged.
   */
  lemma EvaluationOrderIndependent(
    m: Matching, rules: seq<Rule>, rules': seq<Rule>, excs: seq<PolicyException>, excs': seq<PolicyException>,
    assets: seq<Asset>, assets': seq<Asset>, t: int)
    requires multiset(rules) == multiset(rules') && multiset(assets) == multiset(assets')
    requires multiset(excs) == multiset(excs') && Uncontested(m, rules, excs, assets, t)
    ensures Evaluation(m, rules, excs, assets, t) == Evaluation(m, rules', excs', assets', t)
  {
    var rs, es', xs := SortBy(rules, RuleId), SortBy(excs', ExceptionId), SortBy(assets, AssetId);
    SameMembers(rs, rules);
    SameMembers(xs, assets);
    ExceptionOrder(m, rs, excs, excs', xs, t);
    RulesOrder(m, rs, SortBy(rules', RuleId), es', xs, t);
    AssetOrder(m, SortBy(rules', RuleId), es', xs, SortBy(assets', AssetId), t);
  }

  /** No rearrangement of the exceptions changes the summary. */
  ghost predicate SummaryForgetsOrder(m: Matching, rules: seq<Rule>, excs: seq<PolicyException>, assets: seq<Asset>,
                                      t: int)
  {
    forall ys: seq<PolicyException> | multiset(ys) == multiset(excs) ::
      Evaluation(m, rules, ys, assets, t) == Evaluation(m, rules, excs, assets, t)
  }

  /** For one rule and one asset the condition is exact for the summary as well. */
  lemma SummaryForgetsOrderIff(m: Matching, rule: Rule, asset: Asset, excs: seq<PolicyException>, t: int)
    ensures SummaryForgetsOrder(m, [rule], excs, [asset], t) <==> !Exposed(m, rule, asset, excs, t)
  {
    if Exposed(m, rule, asset, excs, t) {
      var granting, refusing := ContestedGrant(m, rule, asset, excs, t);
      OneRuleOneAsset(m, rule, asset, granting, t);
      OneRuleOneAsset(m, rule, asset, refusing, t);
    } else {
      assert Uncontested(m, [rule], excs, [asset], t);
      forall ys: seq<PolicyException> | multiset(ys) == multiset(excs)
        ensures Evaluation(m, [rule], ys, [asset], t) == Evaluation(m, [rule], excs, [asset], t)
      {
        EvaluationOrderIndependent(m, [rule], [rule], excs, ys, [asset], [asset], t);
      }
    }
  }

  /**
   What one violated rule and one exception come to, in dates: the exception counts exactly while it
   is approved and in force; otherwise the rule warns before its deprecation date, blocks from its
   enforcement date on, and does what it says in between.
   */
  lemma VerdictOfOne(m: Matching, rule: Rule, asset: Asset, exc: PolicyException, t: int)
    requires m.violations(rule, asset) != []
    ensures Evaluation(m, [rule], [exc], [asset], t).verdict ==
            if Applies(m, rule, asset, exc) && Grants(exc, t) then Excepted
            else if rule.deprecation.Some? && t < rule.deprecation.value then Warn
            else if rule.enforcement.Some? && rule.enforcement.value <= t then Block
            else rule.action
  {
    OneRuleOneAsset(m, rule, asset, [exc], t);
    SortOne(exc, ExceptionId);
    DecisiveGrants(m, rule, asset, exc, t);
    assert [exc][1..] == [];
  }

  /** Any exception that is granted can be contested by an expired copy of itself. */
  lemma SharedExceptionIdMatters(m: Matching, rule: Rule, asset: Asset, granted: PolicyException,
                                 t: int)
    requires m.violations(rule, asset) != [] && RawAction(rule, t) != Excepted
    requires Decisive(m, rule, asset, granted) && Grants(granted, t)
    ensures
      var expired := granted.(status := ExpiredException);
      Evaluation(m, [rule], [granted, expired], [asset], t).verdict
        != Evaluation(m, [rule], [expired, granted], [asset], t).verdict
  {
    var expired := granted.(status := ExpiredException);
    SortPair(granted, expired, ExceptionId);
    SortPair(expired, granted, ExceptionId);
    assert Granted(m, rule, asset, [granted, expired], t);
    assert !Granted(m, rule, asset, [expired, granted], t);
    OneRuleOneAsset(m, rule, asset, [granted, expired], t);
    OneRuleOneAsset(m, rule, asset, [expired, granted], t);
  }

  lemma {:induction false} OneRuleOneAsset(m: Matching, rule: Rule, asset: Asset, excs: seq<PolicyException>, t: int)
    requires m.violations(rule, asset) != []
    ensures Evaluation(m, [rule], excs, [asset], t).verdict
         == if Search(m, rule, asset, SortBy(excs, ExceptionId), t).0.Some? then Excepted else RawAction(rule, t)
  {
    var es := SortBy(excs, ExceptionId);
    SortOne(rule, RuleId);
    SortOne(asset, AssetId);
    OneRule(m, rule, asset, es, t);
    assert Verdicts(m, [rule], es, [asset], t) == [AssetVerdict(m, [rule], asset, es, t)];
  }

  lemma OneRule(m: Matching, rule: Rule, asset: Asset, excs: seq<PolicyException>, t: int)
    requires m.violations(rule, asset) != []
    ensures AssetVerdict(m, [rule], asset, excs, t)
         == if Search(m, rule, asset, excs, t).0.Some? then Excepted else RawAction(rule, t)
  {
    assert [rule][..0] == [] && FinalActions(m, [], asset, excs, t) == [];
    assert FinalActions(m, [rule], asset, excs, t) == [FinalAction(m, rule, asset, excs, t).value];
  }

  lemma SortOne<T>(x: T, key: T -> string)
    ensures SortBy([x], key) == [x]
  {
    assert [x][..0] == [];
  }

  lemma SortPair<T>(x: T, y: T, key: T -> string)
    requires key(x) == key(y)
    ensures SortBy([x, y], key) == [x, y]
  {
    assert [x, y][..1] == [x];
    SortOne(x, key);
    LeqTotal(key(x), key(y));
  }
}
