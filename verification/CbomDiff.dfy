/**
 Normalization, assessment and comparison of two documents (backend/scanners/cbom_io.py:143-187,
 210-264; backend/scanners/cbom_diff.py).
 */
module CbomDiff {
  import opened Common
  import opened Sorting

  /** A component as read, with its algorithm, key size, reachability and location already extracted. */
  datatype Component = Component(
    bomRef: Option<string>, name: Option<string>, assetType: string, algorithm: string, keySize: Option<nat>,
    reachability: string, location: string)

  datatype Risk = Low | Medium | High | Critical

  datatype PolicyStatus = Compliant | Warning | Violation

  datatype Asset = Asset(
    name: string, assetType: string, algorithm: string, keySize: Option<nat>, risk: Risk,
    quantumVulnerable: bool, policy: PolicyStatus, reachability: string, location: string)

  // ----- Normalization and assessment -----

  function NameOf(c: Component): string {
    if c.name.Some? then c.name.value else "unknown"
  }

  /** What normalization deduplicates on. */
  function DedupKey(c: Component): string {
    OrElse(c.bomRef, NameOf(c))
  }

  predicate HasKey(cs: seq<Component>, key: string) {
    exists c :: c in cs && DedupKey(c) == key
  }

  /** First-seen wins. */
  function Normalized(cs: seq<Component>): seq<Component> {
    if cs == [] then []
    else
      var init, last := Normalized(cs[..|cs| - 1]), cs[|cs| - 1];
      if HasKey(init, DedupKey(last)) then init else init + [last]
  }

  method Normalize(cs: seq<Component>) returns (r: seq<Component>)
    ensures r == Normalized(cs)
  {
    r := [];
    var seen: set<string> := {};
    for i := 0 to |cs|
      invariant r == Normalized(cs[..i])
      invariant seen == set c | c in r :: DedupKey(c)
    {
      assert cs[..i + 1][..i] == cs[..i];
      var key := DedupKey(cs[i]);
      if key !in seen {
        seen := seen + {key};
        r := r + [cs[i]];
      }
    }
    assert cs[..|cs|] == cs;
  }

  /** Normalization keeps, for every key, the first component with it. */
  lemma {:induction false} NormalizedKeepsFirst(cs: seq<Component>, key: string)
    ensures FirstWith(Normalized(cs), key) == FirstWith(cs, key)
  {
    if cs != [] {
      var init, last := cs[..|cs| - 1], cs[|cs| - 1];
      var r := Normalized(init);
      NormalizedKeepsFirst(init, key);
      assert cs == init + [last];
      FirstWithAppend(init, last, key);
      FirstWithAppend(r, last, key);
      FirstWithFound(r, key);
    }
  }

  lemma {:induction false} NormalizedDistinct(cs: seq<Component>)
    ensures forall c | c in Normalized(cs) :: c in cs
    ensures forall i, j | 0 <= i < j < |Normalized(cs)| :: DedupKey(Normalized(cs)[i]) != DedupKey(Normalized(cs)[j])
  {
    if cs != [] {
      var r := Normalized(cs[..|cs| - 1]);
      NormalizedDistinct(cs[..|cs| - 1]);
      assert forall i | 0 <= i < |r| :: r[i] in r;
    }
  }

  function FirstWith(cs: seq<Component>, key: string): Option<Component> {
    if cs == [] then None else if DedupKey(cs[0]) == key then Some(cs[0]) else FirstWith(cs[1..], key)
  }

  lemma {:induction false} FirstWithAppend(cs: seq<Component>, c: Component, key: string)
    ensures FirstWith(cs + [c], key)
         == if FirstWith(cs, key).Some? then FirstWith(cs, key) else if DedupKey(c) == key then Some(c) else None
  {
    if cs == [] {
      assert cs + [c] == [c];
    } else {
      assert (cs + [c])[1..] == cs[1..] + [c];
      FirstWithAppend(cs[1..], c, key);
    }
  }

  lemma {:induction false} FirstWithFound(cs: seq<Component>, key: string)
    ensures FirstWith(cs, key).Some? <==> HasKey(cs, key)
  {
    if cs != [] {
      FirstWithFound(cs[1..], key);
      assert cs == [cs[0]] + cs[1..];
      assert forall c :: c in cs <==> c == cs[0] || c in cs[1..];
    }
  }

  predicate ContainsAny(text: string, needles: seq<string>) {
    exists n :: n in needles && Contains(text, n)
  }

  datatype Assessment = Assessment(risk: Risk, quantumVulnerable: bool, policy: PolicyStatus)

  predicate BrokenAlgorithm(algo: string) {
    ContainsAny(algo, ["MD5", "SHA1", "SHA-1", "DES", "RC4", "3DES"])
  }

  predicate ShorVulnerable(algo: string) {
    ContainsAny(algo, ["RSA", "ECC", "ECDSA", "ECDH", "DSA", "DH"])
  }

  /** The assessment `correlate_cbom` derives from algorithm, key size and profile, and from nothing else. */
  function Assess(algo: string, keySize: Option<nat>, profile: string): Assessment {
    var broken, quantum := BrokenAlgorithm(algo), ShorVulnerable(algo);
    var shortRsa := quantum && keySize.Some? && 0 < keySize.value < 2048 && Contains(algo, "RSA");
    var weak := broken || shortRsa;
    var base := if !broken then Low else if Contains(algo, "MD5") || Contains(algo, "DES") then Critical else High;
    var risk := if shortRsa then Critical else if quantum && base == Low then Medium else base;
    var policy :=
      if profile == "regulated_bfsi" then
        if weak || (algo == "RSA" && keySize.Some? && 0 < keySize.value < 3072) then Violation else Compliant
      else if weak then Violation
      else if quantum && profile == "post_quantum_readiness" then Warning
      else Compliant;
    Assessment(risk, quantum, policy)
  }

  /** The RSA key is shorter than `bits`; a missing or zero size is not. */
  predicate ShortKey(keySize: Option<nat>, bits: nat) {
    keySize.Some? && 0 < keySize.value < bits
  }

  lemma TripleDes(algo: string)
    ensures Contains(algo, "3DES") ==> Contains(algo, "DES")
  {
    ContainsIff(algo, "3DES");
    ContainsIff(algo, "DES");
    if i :| 0 <= i <= |algo| && "3DES" <= algo[i..] {
      assert algo[i..][1..] == algo[i + 1..] && "3DES"[1..] == "DES";
      assert "DES" <= algo[i + 1..];
    }
  }

  lemma BrokenIff(algo: string)
    ensures BrokenAlgorithm(algo) <==>
            || Contains(algo, "MD5") || Contains(algo, "SHA1") || Contains(algo, "SHA-1") || Contains(algo, "DES")
            || Contains(algo, "RC4") || Contains(algo, "3DES")
  {
    var broken := ["MD5", "SHA1", "SHA-1", "DES", "RC4", "3DES"];
    assert broken[0] == "MD5" && broken[1] == "SHA1" && broken[2] == "SHA-1";
    assert broken[3] == "DES" && broken[4] == "RC4" && broken[5] == "3DES";
  }

  lemma ShorIff(algo: string)
    ensures ShorVulnerable(algo) <==>
            || Contains(algo, "RSA") || Contains(algo, "ECC") || Contains(algo, "ECDSA") || Contains(algo, "ECDH")
            || Contains(algo, "DSA") || Contains(algo, "DH")
  {
    var quantum := ["RSA", "ECC", "ECDSA", "ECDH", "DSA", "DH"];
    assert quantum[0] == "RSA" && quantum[1] == "ECC" && quantum[2] == "ECDSA";
    assert quantum[3] == "ECDH" && quantum[4] == "DSA" && quantum[5] == "DH";
  }

  /** What the assessment says, class by class. */
  lemma AssessMeans(algo: string, keySize: Option<nat>, profile: string)
    ensures
      var a := Assess(algo, keySize, profile);
      var critical :=
        Contains(algo, "MD5") || Contains(algo, "DES") || (Contains(algo, "RSA") && ShortKey(keySize, 2048));
      var high := Contains(algo, "SHA1") || Contains(algo, "SHA-1") || Contains(algo, "RC4");
      var violation := a.risk == Critical || a.risk == High
                       || (profile == "regulated_bfsi" && algo == "RSA" && ShortKey(keySize, 3072));
      && (a.quantumVulnerable <==> ShorVulnerable(algo))
      && (a.risk == Critical <==> critical)
      && (a.risk == High <==> high && !critical)
      && (a.risk == Medium <==> a.quantumVulnerable && !high && !critical)
      && (a.policy == Violation <==> violation)
      && (a.policy == Warning <==> a.quantumVulnerable && profile == "post_quantum_readiness" && !violation)
  {
    TripleDes(algo);
    BrokenIff(algo);
    ShorIff(algo);
  }

  /** The key an asset ends up under: a missing reference reads "unknown", an empty one falls back to the name. */
  function AssetRef(c: Component): string {
    if c.bomRef.None? then "unknown" else OrElse(c.bomRef, NameOf(c))
  }

  /** The location is looked up by reference among all components; the last match counts. */
  function LocationOf(cs: seq<Component>, ref: string): string {
    if cs == [] then "unknown"
    else if cs[|cs| - 1].bomRef == Some(ref) then cs[|cs| - 1].location
    else LocationOf(cs[..|cs| - 1], ref)
  }

  function AssetOf(cs: seq<Component>, c: Component, profile: string): Asset {
    var a := Assess(c.algorithm, c.keySize, profile);
    Asset(NameOf(c), c.assetType, c.algorithm, c.keySize, a.risk, a.quantumVulnerable, a.policy, c.reachability,
          LocationOf(cs, AssetRef(c)))
  }

  function AssetRefs(cs: seq<Component>, upTo: nat): set<string>
    requires upTo <= |cs|
  {
    if upTo == 0 then {} else AssetRefs(cs, upTo - 1) + {AssetRef(cs[upTo - 1])}
  }

  /** The asset map of a normalized list; a later asset under the same key replaces an earlier one. */
  function AssetMapOf(cs: seq<Component>, upTo: nat, profile: string): (m: map<string, Asset>)
    requires upTo <= |cs|
    ensures m.Keys == AssetRefs(cs, upTo)
  {
    if upTo == 0 then map[]
    else AssetMapOf(cs, upTo - 1, profile)[AssetRef(cs[upTo - 1]) := AssetOf(cs, cs[upTo - 1], profile)]
  }

  method ExtractComponentMap(cs: seq<Component>, profile: string) returns (m: map<string, Asset>)
    ensures m == AssetMapOf(Normalized(cs), |Normalized(cs)|, profile)
  {
    var components := Normalize(cs);
    m := map[];
    for i := 0 to |components|
      invariant m == AssetMapOf(components, i, profile)
    {
      m := m[AssetRef(components[i]) := AssetOf(components, components[i], profile)];
    }
  }

  predicate DistinctAssetRefs(cs: seq<Component>, upTo: nat)
    requires upTo <= |cs|
  {
    forall i, j | 0 <= i < j < upTo :: AssetRef(cs[i]) != AssetRef(cs[j])
  }

  lemma {:induction false} AssetRefsMember(cs: seq<Component>, upTo: nat, ref: string)
    requires upTo <= |cs|
    ensures ref in AssetRefs(cs, upTo) <==> exists i :: 0 <= i < upTo && AssetRef(cs[i]) == ref
  {
    if upTo > 0 {
      AssetRefsMember(cs, upTo - 1, ref);
    }
  }

  lemma DistinctStep(cs: seq<Component>, upTo: nat)
    requires 0 < upTo <= |cs|
    ensures DistinctAssetRefs(cs, upTo) <==>
            DistinctAssetRefs(cs, upTo - 1) && AssetRef(cs[upTo - 1]) !in AssetRefs(cs, upTo - 1)
  {
    AssetRefsMember(cs, upTo - 1, AssetRef(cs[upTo - 1]));
  }

  lemma AddedElement(refs: set<string>, x: string)
    ensures |refs + {x}| == if x in refs then |refs| else |refs| + 1
  {
    if x in refs {
      assert refs + {x} == refs;
    }
  }

  lemma {:induction false} RefsDistinctIff(cs: seq<Component>, upTo: nat)
    requires upTo <= |cs|
    ensures |AssetRefs(cs, upTo)| <= upTo
    ensures |AssetRefs(cs, upTo)| == upTo <==> DistinctAssetRefs(cs, upTo)
  {
    if upTo > 0 {
      RefsDistinctIff(cs, upTo - 1);
      AddedElement(AssetRefs(cs, upTo - 1), AssetRef(cs[upTo - 1]));
      DistinctStep(cs, upTo);
    }
  }

  /** A normalized list holds exactly the components that are the first with their key. */
  lemma NormalizedMember(cs: seq<Component>, c: Component)
    ensures c in Normalized(cs) <==> FirstWith(cs, DedupKey(c)) == Some(c)
  {
    var r := Normalized(cs);
    NormalizedKeepsFirst(cs, DedupKey(c));
    NormalizedDistinct(cs);
    FirstWithMember(r, DedupKey(c));
    FirstWithFound(r, DedupKey(c));
    if c in r {
      var d := FirstWith(r, DedupKey(c)).value;
      var i, j :| 0 <= i < |r| && 0 <= j < |r| && r[i] == c && r[j] == d;
      assert i == j;
    }
  }

  lemma {:induction false} FirstWithMember(cs: seq<Component>, key: string)
    ensures FirstWith(cs, key).Some? ==> FirstWith(cs, key).value in cs && DedupKey(FirstWith(cs, key).value) == key
  {
    if cs != [] {
      FirstWithMember(cs[1..], key);
    }
  }

  /** The component survives normalization: none before it has its key. */
  predicate Kept(cs: seq<Component>, c: Component) {
    FirstWith(cs, DedupKey(c)) == Some(c)
  }

  /** The asset is filed under the placeholder for missing references, or under a reference spelled like it. */
  predicate FiledAsUnknown(c: Component) {
    c.bomRef.None? || DedupKey(c) == "unknown"
  }

  /** No component without a reference meets another kept component under the placeholder. */
  predicate NoneCollide(cs: seq<Component>) {
    forall c, d | c in cs && d in cs && Kept(cs, c) && Kept(cs, d) && c.bomRef.None? && FiledAsUnknown(d) :: c == d
  }

  lemma SameAssetRefIff(c: Component, d: Component)
    requires DedupKey(c) != DedupKey(d)
    ensures AssetRef(c) == AssetRef(d) <==>
            (c.bomRef.None? && FiledAsUnknown(d)) || (d.bomRef.None? && FiledAsUnknown(c))
  {
  }

  lemma DistinctWhenNoneCollide(cs: seq<Component>)
    requires NoneCollide(cs)
    ensures DistinctAssetRefs(Normalized(cs), |Normalized(cs)|)
  {
    var n := Normalized(cs);
    NormalizedDistinct(cs);
    forall i, j | 0 <= i < j < |n| ensures AssetRef(n[i]) != AssetRef(n[j]) {
      NormalizedMember(cs, n[i]);
      NormalizedMember(cs, n[j]);
      SameAssetRefIff(n[i], n[j]);
      assert n[i] in cs && n[j] in cs && n[i] != n[j];
    }
  }

  lemma CollisionLoses(cs: seq<Component>)
    requires !NoneCollide(cs)
    ensures !DistinctAssetRefs(Normalized(cs), |Normalized(cs)|)
  {
    var n := Normalized(cs);
    var c, d :| c in cs && d in cs && Kept(cs, c) && Kept(cs, d) && c.bomRef.None? && FiledAsUnknown(d) && c != d;
    NormalizedMember(cs, c);
    NormalizedMember(cs, d);
    SameAssetRefIff(c, d);
    var i :| 0 <= i < |n| && n[i] == c;
    var j :| 0 <= j < |n| && n[j] == d;
    assert i != j && AssetRef(n[i]) == AssetRef(n[j]);
  }

  /**
   After normalization no asset is lost in the map exactly when no component without a reference
   meets another under the placeholder "unknown"; all such components end up under that one key.
   */
  lemma NoAssetLostIff(cs: seq<Component>, profile: string)
    ensures |AssetMapOf(Normalized(cs), |Normalized(cs)|, profile)| == |Normalized(cs)| <==> NoneCollide(cs)
  {
    var n := Normalized(cs);
    RefsDistinctIff(n, |n|);
    assert |AssetMapOf(n, |n|, profile)| == |AssetMapOf(n, |n|, profile).Keys|;
    if NoneCollide(cs) {
      DistinctWhenNoneCollide(cs);
    } else {
      CollisionLoses(cs);
    }
  }

  /** The asset carries what the component says, and the assessment of its algorithm and key size. */
  predicate Carries(a: Asset, c: Component, profile: string) {
    && a.name == NameOf(c) && a.assetType == c.assetType && a.algorithm == c.algorithm && a.keySize == c.keySize
    && a.reachability == c.reachability && a.location == c.location
    && Assessment(a.risk, a.quantumVulnerable, a.policy) == Assess(c.algorithm, c.keySize, profile)
  }

  lemma {:induction false} OwnLocation(cs: seq<Component>, i: nat)
    requires i < |cs| && cs[i].bomRef.Some? && forall j | i < j < |cs| :: cs[j].bomRef != cs[i].bomRef
    ensures LocationOf(cs, cs[i].bomRef.value) == cs[i].location
  {
    if i < |cs| - 1 {
      OwnLocation(cs[..|cs| - 1], i);
    }
  }

  lemma {:induction false} AssetAt(cs: seq<Component>, upTo: nat, i: nat, profile: string)
    requires i < upTo <= |cs| && DistinctAssetRefs(cs, upTo)
    ensures AssetRef(cs[i]) in AssetMapOf(cs, upTo, profile)
    ensures AssetMapOf(cs, upTo, profile)[AssetRef(cs[i])] == AssetOf(cs, cs[i], profile)
  {
    if i < upTo - 1 {
      AssetAt(cs, upTo - 1, i, profile);
    }
  }

  lemma EveryReferenceFiled(cs: seq<Component>, c: Component)
    requires (forall d | d in cs :: d.bomRef.Some? && d.bomRef.value != "") && c in cs
    ensures c.bomRef.value in AssetRefs(Normalized(cs), |Normalized(cs)|)
  {
    var n, key := Normalized(cs), DedupKey(c);
    FirstWithFound(cs, key);
    NormalizedKeepsFirst(cs, key);
    FirstWithMember(n, key);
    var d := FirstWith(n, key).value;
    NormalizedDistinct(cs);
    var i :| 0 <= i < |n| && n[i] == d;
    AssetRefsMember(n, |n|, c.bomRef.value);
  }

  /** In a document whose components all carry references, every kept one is filed under its own, as it is. */
  lemma FiledAsIs(cs: seq<Component>, c: Component, profile: string)
    requires (forall d | d in cs :: d.bomRef.Some? && d.bomRef.value != "") && c in cs && c in Normalized(cs)
    ensures
      var m := AssetMapOf(Normalized(cs), |Normalized(cs)|, profile);
      c.bomRef.value in m && Carries(m[c.bomRef.value], c, profile)
  {
    var n := Normalized(cs);
    NormalizedDistinct(cs);
    ReferencedKeepsAll(cs, profile);
    var i :| 0 <= i < |n| && n[i] == c;
    AssetAt(n, |n|, i, profile);
    OwnLocation(n, i);
  }

  /** Documents whose components all carry references lose no asset: every reference is in the map. */
  lemma ReferencedKeepsAll(cs: seq<Component>, profile: string)
    requires forall c | c in cs :: c.bomRef.Some? && c.bomRef.value != ""
    ensures
      var n := Normalized(cs);
      && DistinctAssetRefs(n, |n|) && |AssetMapOf(n, |n|, profile)| == |n|
      && forall c | c in cs :: c.bomRef.value in AssetMapOf(n, |n|, profile)
  {
    forall c | c in cs ensures c.bomRef.value in AssetRefs(Normalized(cs), |Normalized(cs)|) {
      EveryReferenceFiled(cs, c);
    }
    NoAssetLostIff(cs, profile);
    NormalizedDistinct(cs);
  }

  // ----- Comparison -----

  datatype Status = New | Removed | Changed | Unchanged | RiskChanged | PolicyChanged

  datatype Item = Item(ref: string, status: Status, baseline: Option<Asset>, current: Option<Asset>)

  predicate SameTechnically(base: Asset, cur: Asset) {
    base.algorithm == cur.algorithm && base.keySize == cur.keySize
    && base.reachability == cur.reachability && base.location == cur.location
  }

  predicate SameRisk(base: Asset, cur: Asset) {
    base.risk == cur.risk && base.quantumVulnerable == cur.quantumVulnerable
  }

  function Classify(base: Asset, cur: Asset): Status {
    if !SameTechnically(base, cur) then Changed
    else if !SameRisk(base, cur) then RiskChanged
    else if base.policy != cur.policy then PolicyChanged
    else Unchanged
  }

  function Lookup(m: map<string, Asset>, ref: string): Option<Asset> {
    if ref in m then Some(m[ref]) else None
  }

  function ItemFor(base: map<string, Asset>, cur: map<string, Asset>, ref: string): Item
    requires ref in base || ref in cur
  {
    Item(ref,
         if ref !in base then New else if ref !in cur then Removed else Classify(base[ref], cur[ref]),
         Lookup(base, ref), Lookup(cur, ref))
  }

  function RefsOf(items: seq<Item>): seq<string> {
    seq(|items|, i requires 0 <= i < |items| => items[i].ref)
  }

  /** The items compare the two maps: one per reference of either, in sorted order. */
  ghost predicate IsDiff(base: map<string, Asset>, cur: map<string, Asset>, items: seq<Item>) {
    && (forall i | 0 <= i < |items| ::
          items[i].ref in base.Keys + cur.Keys && items[i] == ItemFor(base, cur, items[i].ref))
    && (forall ref | ref in base.Keys + cur.Keys :: ref in RefsOf(items))
    && (forall i, j | 0 <= i < j < |items| :: items[i].ref != items[j].ref)
    && SortedBy(RefsOf(items), Whole)
  }

  function Count(items: seq<Item>, s: Status): nat {
    if items == [] then 0 else Count(items[..|items| - 1], s) + if items[|items| - 1].status == s then 1 else 0
  }

  /** The elements of a set in sorted order. */
  method SortedElements(refs: set<string>) returns (r: seq<string>)
    ensures SortedBy(r, Whole) && (forall x :: x in r <==> x in refs)
    ensures forall i, j | 0 <= i < j < |r| :: r[i] != r[j]
  {
    var listed: seq<string> := [];
    var rest := refs;
    while rest != {}
      invariant forall x :: x in refs <==> x in rest || x in listed
      invariant forall x | x in listed :: x !in rest
      invariant forall i, j | 0 <= i < j < |listed| :: listed[i] != listed[j]
      decreases rest
    {
      var x :| x in rest;
      listed, rest := listed + [x], rest - {x};
    }
    r := SortBy(listed, Whole);
    SortBySorted(listed, Whole);
    SameMembers(r, listed);
    DistinctByMultiset(listed, r);
  }

  /** The counters agree with the items. */
  ghost predicate Tallies(summary: map<Status, nat>, items: seq<Item>) {
    forall s: Status :: s in summary && summary[s] == Count(items, s)
  }

  lemma TalliesStart()
    ensures Tallies(map[New := 0, Removed := 0, Changed := 0, Unchanged := 0, RiskChanged := 0, PolicyChanged := 0], [])
  {
    var m: map<Status, nat> :=
      map[New := 0, Removed := 0, Changed := 0, Unchanged := 0, RiskChanged := 0, PolicyChanged := 0];
    forall s: Status ensures s in m && m[s] == 0 {
      assert s.New? || s.Removed? || s.Changed? || s.Unchanged? || s.RiskChanged? || s.PolicyChanged?;
    }
  }

  lemma TalliesMore(summary: map<Status, nat>, items: seq<Item>, item: Item)
    requires Tallies(summary, items)
    ensures item.status in summary && Tallies(summary[item.status := summary[item.status] + 1], items + [item])
  {
    assert (items + [item])[..|items|] == items;
  }

  /** The asset as the comparison sees it: without its display name and type. */
  function Compared(a: Asset): Asset {
    a.(name := "", assetType := "")
  }

  /** What each class says about the two documents. */
  ghost predicate Means(base: map<string, Asset>, cur: map<string, Asset>, ref: string, status: Status) {
    match status
    case New => ref in cur && ref !in base
    case Removed => ref in base && ref !in cur
    case Unchanged => ref in base && ref in cur && Compared(base[ref]) == Compared(cur[ref])
    case Changed => ref in base && ref in cur && !SameTechnically(base[ref], cur[ref])
    case RiskChanged =>
      && ref in base && ref in cur && SameTechnically(base[ref], cur[ref]) && !SameRisk(base[ref], cur[ref])
    case PolicyChanged =>
      // alike in everything that is compared but the policy status
      && ref in base && ref in cur && base[ref].policy != cur[ref].policy
      && Compared(base[ref]).(policy := cur[ref].policy) == Compared(cur[ref])
  }

  /** The classes exclude each other and cover every reference of either document. */
  lemma OneClass(base: map<string, Asset>, cur: map<string, Asset>, ref: string, s: Status)
    requires ref in base || ref in cur
    ensures Means(base, cur, ref, s) <==> ItemFor(base, cur, ref).status == s
  {
  }

  /** The comparison of one reference: the class it reports is the one whose meaning holds. */
  method Compare(base: map<string, Asset>, cur: map<string, Asset>, ref: string) returns (item: Item)
    requires ref in base || ref in cur
    ensures item == ItemFor(base, cur, ref)
    ensures forall s: Status :: item.status == s <==> Means(base, cur, ref, s)
    ensures item.baseline == Lookup(base, ref) && item.current == Lookup(cur, ref)
  {
    var status;
    if ref !in base {
      status := New;
    } else if ref !in cur {
      status := Removed;
    } else {
      var b, c := base[ref], cur[ref];
      var techChanged := b.algorithm != c.algorithm || b.keySize != c.keySize || b.reachability != c.reachability
                         || b.location != c.location;
      var riskChanged := b.risk != c.risk || b.quantumVulnerable != c.quantumVulnerable;
      status := if techChanged then Changed else if riskChanged then RiskChanged
                else if b.policy != c.policy then PolicyChanged else Unchanged;
    }
    item := Item(ref, status, Lookup(base, ref), Lookup(cur, ref));
    forall s: Status ensures item.status == s <==> Means(base, cur, ref, s) {
      OneClass(base, cur, ref, s);
    }
  }

  /** `diff_cboms` on asset maps: items in reference order and a counter per class. */
  method DiffMaps(base: map<string, Asset>, cur: map<string, Asset>)
    returns (items: seq<Item>, summary: map<Status, nat>)
    ensures IsDiff(base, cur, items) && Tallies(summary, items)
  {
    var refs := SortedElements(base.Keys + cur.Keys);
    items := [];
    summary := map[New := 0, Removed := 0, Changed := 0, Unchanged := 0, RiskChanged := 0, PolicyChanged := 0];
    TalliesStart();
    for k := 0 to |refs|
      invariant |items| == k
      invariant forall i | 0 <= i < k :: refs[i] in base.Keys + cur.Keys && items[i] == ItemFor(base, cur, refs[i])
      invariant Tallies(summary, items)
    {
      assert refs[k] in refs;
      var item := Compare(base, cur, refs[k]);
      TalliesMore(summary, items, item);
      summary := summary[item.status := summary[item.status] + 1];
      items := items + [item];
    }
    assert RefsOf(items) == refs;
  }

  /** `diff_cboms`: both documents are assessed under the same profile. */
  method DiffCboms(baseline: seq<Component>, current: seq<Component>, profile: string)
    returns (items: seq<Item>, summary: map<Status, nat>, totalBaseline: nat, totalCurrent: nat)
    ensures
      var base := AssetMapOf(Normalized(baseline), |Normalized(baseline)|, profile);
      var cur := AssetMapOf(Normalized(current), |Normalized(current)|, profile);
      IsDiff(base, cur, items) && totalBaseline == |base| && totalCurrent == |cur|
    ensures Tallies(summary, items)
  {
    var base := ExtractComponentMap(baseline, profile);
    var cur := ExtractComponentMap(current, profile);
    items, summary := DiffMaps(base, cur);
    totalBaseline, totalCurrent := |base|, |cur|;
  }

  // ----- What a comparison says -----

  lemma {:induction false} CountsCover(items: seq<Item>)
    ensures Count(items, New) + Count(items, Removed) + Count(items, Changed) + Count(items, Unchanged)
            + Count(items, RiskChanged) + Count(items, PolicyChanged) == |items|
  {
    if items != [] {
      CountsCover(items[..|items| - 1]);
    }
  }

  /** The references of the items whose baseline, resp. current, side is there. */
  function Present(items: seq<Item>, baselineSide: bool): set<string> {
    if items == [] then {}
    else
      var last := items[|items| - 1];
      Present(items[..|items| - 1], baselineSide)
      + if (if baselineSide then last.baseline else last.current).Some? then {last.ref} else {}
  }

  lemma {:induction false} PresentMember(items: seq<Item>, baselineSide: bool, ref: string)
    ensures ref in Present(items, baselineSide) <==>
            exists i :: 0 <= i < |items| && items[i].ref == ref
                        && (if baselineSide then items[i].baseline else items[i].current).Some?
  {
    if items != [] {
      PresentMember(items[..|items| - 1], baselineSide, ref);
    }
  }

  lemma {:induction false} PresentCount(items: seq<Item>, baselineSide: bool)
    requires forall i, j | 0 <= i < j < |items| :: items[i].ref != items[j].ref
    requires forall i | 0 <= i < |items| ::
               (if baselineSide then items[i].baseline else items[i].current).None?
               <==> items[i].status == if baselineSide then New else Removed
    ensures |Present(items, baselineSide)| == |items| - Count(items, if baselineSide then New else Removed)
  {
    if items != [] {
      var init, last := items[..|items| - 1], items[|items| - 1];
      PresentCount(init, baselineSide);
      PresentMember(init, baselineSide, last.ref);
      AddedElement(Present(init, baselineSide), last.ref);
    }
  }

  lemma ItemAt(base: map<string, Asset>, cur: map<string, Asset>, items: seq<Item>, ref: string) returns (i: nat)
    requires IsDiff(base, cur, items) && ref in base.Keys + cur.Keys
    ensures i < |items| && items[i].ref == ref && items[i] == ItemFor(base, cur, ref)
  {
    assert ref in RefsOf(items);
    i :| 0 <= i < |RefsOf(items)| && RefsOf(items)[i] == ref;
  }

  lemma PresentIsKeys(base: map<string, Asset>, cur: map<string, Asset>, items: seq<Item>)
    requires IsDiff(base, cur, items)
    ensures Present(items, true) == base.Keys && Present(items, false) == cur.Keys
  {
    forall ref: string ensures ref in Present(items, true) <==> ref in base {
      PresentMember(items, true, ref);
      if ref in base {
        var i := ItemAt(base, cur, items, ref);
      }
    }
    forall ref: string ensures ref in Present(items, false) <==> ref in cur {
      PresentMember(items, false, ref);
      if ref in cur {
        var i := ItemAt(base, cur, items, ref);
      }
    }
  }

  /** The baseline side is missing exactly from NEW items, the current side from REMOVED ones. */
  lemma SidesAgree(base: map<string, Asset>, cur: map<string, Asset>, items: seq<Item>)
    requires IsDiff(base, cur, items)
    ensures forall i | 0 <= i < |items| :: items[i].baseline.None? <==> items[i].status == New
    ensures forall i | 0 <= i < |items| :: items[i].current.None? <==> items[i].status == Removed
  {
    forall i | 0 <= i < |items|
      ensures items[i].baseline.None? <==> items[i].status == New
      ensures items[i].current.None? <==> items[i].status == Removed
    {
      assert items[i] == ItemFor(base, cur, items[i].ref);
    }
  }

  /** Conservation: every baseline asset is in some class but NEW, every current one in some class but REMOVED. */
  lemma DiffConserves(base: map<string, Asset>, cur: map<string, Asset>, items: seq<Item>)
    requires IsDiff(base, cur, items)
    ensures |base| == |items| - Count(items, New) && |cur| == |items| - Count(items, Removed)
  {
    PresentIsKeys(base, cur, items);
    SidesAgree(base, cur, items);
    PresentCount(items, true);
    PresentCount(items, false);
  }

  /** The items give both maps back, entry for entry. */
  lemma ItemsRebuildMaps(base: map<string, Asset>, cur: map<string, Asset>, items: seq<Item>, ref: string, a: Asset)
    requires IsDiff(base, cur, items)
    ensures Lookup(base, ref) == Some(a) <==>
              exists i :: 0 <= i < |items| && items[i].ref == ref && items[i].baseline == Some(a)
    ensures Lookup(cur, ref) == Some(a) <==>
              exists i :: 0 <= i < |items| && items[i].ref == ref && items[i].current == Some(a)
  {
    if ref in base.Keys + cur.Keys {
      var i := ItemAt(base, cur, items, ref);
    }
  }

  function Mirror(s: Status): Status {
    match s
    case New => Removed
    case Removed => New
    case other => other
  }

  /** Comparing in the other direction exchanges NEW with REMOVED and the two sides, item by item. */
  lemma SwapMirrors(base: map<string, Asset>, cur: map<string, Asset>, items: seq<Item>, swapped: seq<Item>)
    requires IsDiff(base, cur, items) && IsDiff(cur, base, swapped)
    ensures |items| == |swapped|
    ensures forall i | 0 <= i < |items| ::
              swapped[i] == Item(items[i].ref, Mirror(items[i].status), items[i].current, items[i].baseline)
  {
    SameListing(RefsOf(items), RefsOf(swapped));
    forall i | 0 <= i < |items|
      ensures swapped[i] == Item(items[i].ref, Mirror(items[i].status), items[i].current, items[i].baseline)
    {
      assert RefsOf(items)[i] == RefsOf(swapped)[i];
    }
  }

  /** A set has only one listing that is sorted and free of duplicates. */
  lemma SameListing(a: seq<string>, b: seq<string>)
    requires SortedBy(a, Whole) && SortedBy(b, Whole) && forall x :: x in a <==> x in b
    requires forall i, j | 0 <= i < j < |a| :: a[i] != a[j]
    requires forall i, j | 0 <= i < j < |b| :: b[i] != b[j]
    ensures a == b
  {
    forall x: string ensures multiset(a)[x] == multiset(b)[x] {
      MultiplicityOne(a, x);
      MultiplicityOne(b, x);
      assert x in multiset(a) <==> x in a;
      assert x in multiset(b) <==> x in b;
    }
    SortedUnique(a, b, Whole);
  }

  /** A document compared with itself shows no difference. */
  lemma SelfDiffUnchanged(m: map<string, Asset>, items: seq<Item>)
    requires IsDiff(m, m, items)
    ensures forall i | 0 <= i < |items| :: items[i].status == Unchanged
  {
    forall i | 0 <= i < |items| ensures items[i].status == Unchanged {
      assert items[i] == ItemFor(m, m, items[i].ref);
    }
  }

  // ----- Two classes the pipeline never reports -----

  /** The asset carries the assessment of its algorithm and key size. */
  predicate Assessed(a: Asset, profile: string) {
    Assessment(a.risk, a.quantumVulnerable, a.policy) == Assess(a.algorithm, a.keySize, profile)
  }

  lemma AssetOfAssessed(cs: seq<Component>, c: Component, profile: string)
    ensures Assessed(AssetOf(cs, c, profile), profile)
  {
  }

  lemma {:induction false} AssetsAreAssessed(cs: seq<Component>, upTo: nat, profile: string, ref: string)
    requires upTo <= |cs| && ref in AssetMapOf(cs, upTo, profile)
    ensures Assessed(AssetMapOf(cs, upTo, profile)[ref], profile)
  {
    var last := cs[upTo - 1];
    if ref == AssetRef(last) {
      AssetOfAssessed(cs, last, profile);
      assert AssetMapOf(cs, upTo, profile)[ref] == AssetOf(cs, last, profile);
    } else {
      AssetsAreAssessed(cs, upTo - 1, profile, ref);
      assert AssetMapOf(cs, upTo, profile)[ref] == AssetMapOf(cs, upTo - 1, profile)[ref];
    }
  }

  /**
   Risk and policy are derived from algorithm, key size and profile, and both sides use the same
   profile; so a change of either always shows as CHANGED, and no comparison of documents reports
   RISK_CHANGED or POLICY_CHANGED, whatever the documents.
   */
  lemma RiskAndPolicyChangesUnreachable(
    baseline: seq<Component>, current: seq<Component>, profile: string, items: seq<Item>)
    requires IsDiff(AssetMapOf(Normalized(baseline), |Normalized(baseline)|, profile),
                    AssetMapOf(Normalized(current), |Normalized(current)|, profile), items)
    ensures forall i | 0 <= i < |items| :: items[i].status != RiskChanged && items[i].status != PolicyChanged
  {
    var b, c := Normalized(baseline), Normalized(current);
    var base, cur := AssetMapOf(b, |b|, profile), AssetMapOf(c, |c|, profile);
    forall i | 0 <= i < |items| ensures items[i].status != RiskChanged && items[i].status != PolicyChanged {
      var ref := items[i].ref;
      assert items[i] == ItemFor(base, cur, ref);
      if ref in base && ref in cur {
        AssetsAreAssessed(b, |b|, profile, ref);
        AssetsAreAssessed(c, |c|, profile, ref);
      }
    }
  }
}
