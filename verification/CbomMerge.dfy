/**
 `merge_cboms` as it runs: components are shared, mutable objects, the first-seen object of a
 reference becomes part of the result and collects occurrences in place.  Each method is proved
 against the functions on contents in `CbomModel`.
 */
module CbomMerge {
  import opened Common
  import opened CbomModel

  class Component {
    const ref: string
    const info: Info
    var evidence: Option<seq<Occurrence>>
    var locsCache: Option<set<Key>>

    constructor (ref: string, info: Info, evidence: Option<seq<Occurrence>>)
      ensures this.ref == ref && this.info == info && this.evidence == evidence && locsCache == None
    {
      this.ref, this.info, this.evidence, locsCache := ref, info, evidence, None;
    }

    function Occurrences(): seq<Occurrence>
      reads this
    {
      if evidence.Some? then evidence.value else []
    }

    /** When the cache is there it is exactly the set of stored keys. */
    predicate Valid()
      reads this
    {
      locsCache.Some? ==> locsCache.value == KeysOf(Occurrences())
    }

    function View(): CompView
      reads this
    {
      CompView(ref, info, Occurrences())
    }

    /** Builds the cache from the stored occurrences on first use. */
    method FillCache()
      requires Valid()
      modifies this`locsCache
      ensures locsCache == Some(KeysOf(Occurrences()))
    {
      if locsCache.None? {
        var occs := Occurrences();
        var keys: set<Key> := {};
        for i := 0 to |occs|
          invariant keys == KeysOf(occs[..i])
        {
          assert occs[..i + 1] == occs[..i] + [occs[i]];
          KeysOfAppend(occs[..i], occs[i]);
          keys := keys + {occs[i].key};
        }
        assert occs[..|occs|] == occs;
        locsCache := Some(keys);
      }
    }

    /** Stores one occurrence unless its key is known. */
    method AddOccurrence(occ: Occurrence)
      requires Valid() && evidence.Some? && locsCache.Some?
      modifies this
      ensures Valid() && evidence.Some? && locsCache.Some?
      ensures Occurrences() == AddNew(old(Occurrences()), [occ])
    {
      AddOne(evidence.value, occ);
      if occ.key !in locsCache.value {
        KeysOfAppend(evidence.value, occ);
        locsCache := Some(locsCache.value + {occ.key});
        evidence := Some(evidence.value + [occ]);
      }
    }

    /** Takes in the occurrences of a later component with the same reference, possibly this very object. */
    method AbsorbEvidence(comp: Component)
      requires Valid()
      modifies this
      ensures Valid()
      ensures Occurrences() == AddNew(old(Occurrences()), old(comp.Occurrences()))
    {
      if comp.evidence.Some? && comp.evidence.value != [] {
        var incoming := comp.evidence.value;
        if evidence.None? {
          evidence := Some([]);
        }
        ghost var start := Occurrences();
        FillCache();
        for i := 0 to |incoming|
          invariant Valid() && evidence.Some? && locsCache.Some?
          invariant Occurrences() == AddNew(start, incoming[..i])
        {
          AddNewStepwise(start, incoming[..i], incoming[i]);
          assert incoming[..i + 1] == incoming[..i] + [incoming[i]];
          AddOccurrence(incoming[i]);
        }
        assert incoming[..|incoming|] == incoming;
      }
    }
  }

  lemma KeysOfAppend(occs: seq<Occurrence>, o: Occurrence)
    ensures KeysOf(occs + [o]) == KeysOf(occs) + {o.key}
  {
  }

  lemma AddOne(base: seq<Occurrence>, o: Occurrence)
    ensures AddNew(base, [o]) == if o.key in KeysOf(base) then base else base + [o]
  {
    assert [o][1..] == [];
  }

  /** A document: its components in iteration order and its dependency edges. */
  datatype Bom = Bom(components: seq<Component>, edges: set<Edge>)

  function Views(cs: seq<Component>): (r: seq<CompView>)
    reads cs
    ensures |r| == |cs| && forall i | 0 <= i < |cs| :: r[i] == cs[i].View()
  {
    seq(|cs|, i requires 0 <= i < |cs| reads cs => cs[i].View())
  }

  function AllComponents(boms: seq<Bom>): seq<Component> {
    if boms == [] then [] else AllComponents(boms[..|boms| - 1]) + boms[|boms| - 1].components
  }

  function AllEdges(boms: seq<Bom>): set<Edge> {
    if boms == [] then {} else AllEdges(boms[..|boms| - 1]) + boms[|boms| - 1].edges
  }

  lemma {:induction false} AbsorbAppends(acc: seq<CompView>, c: CompView)
    requires !HasRef(acc, c.ref)
    ensures Absorb(acc, c) == acc + [c]
  {
    if acc != [] {
      assert acc[0] in acc;
      assert forall d | d in acc[1..] :: d in acc;
      AbsorbAppends(acc[1..], c);
    }
  }

  lemma {:induction false} AbsorbUpdates(acc: seq<CompView>, c: CompView, k: nat)
    requires DistinctRefs(acc) && k < |acc| && acc[k].ref == c.ref
    ensures Absorb(acc, c) == acc[k := acc[k].(occs := AddNew(acc[k].occs, c.occs))]
  {
    if k > 0 {
      var tail := acc[1..];
      assert acc[0].ref != acc[k].ref && tail[k - 1] == acc[k];
      AbsorbUpdates(tail, c, k - 1);
      assert acc[k := acc[k].(occs := AddNew(acc[k].occs, c.occs))]
          == [acc[0]] + tail[k - 1 := acc[k].(occs := AddNew(acc[k].occs, c.occs))];
    }
  }

  /** The contents the components had when merging began. */
  ghost function Was(was: map<Component, CompView>, cs: seq<Component>): (r: seq<CompView>)
    requires forall c | c in cs :: c in was
    ensures |r| == |cs| && forall i | 0 <= i < |cs| :: r[i] == was[cs[i]]
  {
    seq(|cs|, i requires 0 <= i < |cs| => was[cs[i]])
  }

  /**
   The state of a merge that has taken in the components `done`: the result so far has the
   contents merging prescribes, `compMap` finds its objects by reference, and every other
   object is as it was.
   */
  ghost predicate Progress(was: map<Component, CompView>, compMap: map<string, Component>,
                           out: seq<Component>, done: seq<Component>)
    reads was.Keys
  {
    && (forall c | c in done :: c in was)
    && (forall c | c in out :: c in was)
    && Indexed(compMap, out)
    && (forall c | c in was :: Preserved(was, c, c in out))
    && Views(out) == MergeViews(Was(was, done))
  }

  /** `compMap` finds exactly the objects of the result, by their references. */
  ghost predicate Indexed(compMap: map<string, Component>, out: seq<Component>) {
    && (forall c | c in out :: c.ref in compMap && compMap[c.ref] == c)
    && (forall ref | ref in compMap :: compMap[ref] in out && compMap[ref].ref == ref)
  }

  /** An object of the result only gained occurrences; any other is untouched. */
  ghost predicate Preserved(was: map<Component, CompView>, c: Component, inResult: bool)
    requires c in was
    reads c
  {
    && c.Valid() && was[c].ref == c.ref && was[c].info == c.info
    && KeysOf(was[c].occs) <= KeysOf(c.Occurrences())
    && (!inResult ==> c.View() == was[c])
  }

  lemma ProgressHasRef(was: map<Component, CompView>, compMap: map<string, Component>,
                       out: seq<Component>, done: seq<Component>, ref: string)
    requires Progress(was, compMap, out, done)
    ensures ref in compMap <==> HasRef(Views(out), ref)
  {
    if ref in compMap {
      var k :| 0 <= k < |out| && out[k] == compMap[ref];
      assert Views(out)[k] in Views(out);
    }
    if HasRef(Views(out), ref) {
      var v :| v in Views(out) && v.ref == ref;
      var k :| 0 <= k < |out| && Views(out)[k] == v;
      assert out[k] in out;
    }
  }

  lemma FirstContents(was: map<Component, CompView>, compMap: map<string, Component>,
                      out: seq<Component>, done: seq<Component>, comp: Component)
    requires Progress(was, compMap, out, done) && comp in was && comp.ref !in compMap
    ensures comp !in out
    ensures forall c | c in done + [comp] :: c in was
    ensures Views(out + [comp]) == MergeViews(Was(was, done + [comp]))
  {
    assert !HasRef(Views(out), comp.ref) by {
      ProgressHasRef(was, compMap, out, done, comp.ref);
    }
    assert comp !in out && Preserved(was, comp, false);
    assert MergeViews(Was(was, done + [comp])) == Absorb(Views(out), was[comp]) by {
      MergeViewsStep(Was(was, done), was[comp]);
      assert Was(was, done + [comp]) == Was(was, done) + [was[comp]];
    }
    AbsorbAppends(Views(out), was[comp]);
  }

  /** A component with a new reference joins the result as it is. */
  lemma ProgressFirst(was: map<Component, CompView>, compMap: map<string, Component>,
                      out: seq<Component>, done: seq<Component>, comp: Component)
    requires Progress(was, compMap, out, done) && comp in was && comp.ref !in compMap
    ensures Progress(was, compMap[comp.ref := comp], out + [comp], done + [comp])
  {
    FirstContents(was, compMap, out, done, comp);
    forall c | c in was ensures Preserved(was, c, c in out + [comp]) {
      assert Preserved(was, c, c in out);
    }
    assert Indexed(compMap[comp.ref := comp], out + [comp]);
  }

  /** What the surviving object must hold once a later component has been taken in. */
  lemma ProgressNext(was: map<Component, CompView>, compMap: map<string, Component>,
                     out: seq<Component>, done: seq<Component>, comp: Component, k: nat)
    requires Progress(was, compMap, out, done) && comp in was && k < |out| && out[k].ref == comp.ref
    ensures forall c | c in done + [comp] :: c in was
    ensures MergeViews(Was(was, done + [comp]))
         == Views(out)[k := Views(out)[k].(occs := AddNew(out[k].Occurrences(), comp.Occurrences()))]
    ensures forall m | 0 <= m < |out| && m != k :: out[m] != out[k]
  {
    MergeViewsStep(Was(was, done), was[comp]);
    assert Was(was, done + [comp]) == Was(was, done) + [was[comp]];
    MergeDistinct(Was(was, done));
    AbsorbUpdates(Views(out), was[comp], k);
    if comp in out {
      assert out[k] in out && comp == out[k] && Preserved(was, comp, true);
      AddKnown(out[k].Occurrences(), was[comp].occs);
      AddKnown(out[k].Occurrences(), comp.Occurrences());
    } else {
      assert Preserved(was, comp, false);
    }
    forall m | 0 <= m < |out| && m != k ensures out[m] != out[k] {
      assert Views(out)[m].ref != Views(out)[k].ref;
    }
  }

  /** The body of the merge loop for one component. */
  method MergeComponent(comp: Component, compMap: map<string, Component>, out: seq<Component>,
                        ghost done: seq<Component>, ghost was: map<Component, CompView>)
    returns (compMap': map<string, Component>, out': seq<Component>)
    requires Progress(was, compMap, out, done) && comp in was
    modifies out
    ensures Progress(was, compMap', out', done + [comp])
  {
    if comp.ref !in compMap {
      ProgressFirst(was, compMap, out, done, comp);
      compMap', out' := compMap[comp.ref := comp], out + [comp];
    } else {
      compMap', out' := compMap, out;
      var existing := compMap[comp.ref];
      assert Preserved(was, existing, true) && Preserved(was, comp, comp in out);
      ghost var k :| 0 <= k < |out| && out[k] == existing;
      ProgressNext(was, compMap, out, done, comp, k);
      ghost var before := Views(out);
      ghost var goal := MergeViews(Was(was, done + [comp]));
      existing.AbsorbEvidence(comp);
      assert forall m | 0 <= m < |out| && m != k :: out[m].View() == before[m];
      assert Views(out) == goal;
      assert Preserved(was, existing, true);
      forall c | c in was ensures Preserved(was, c, c in out) {
        assert c != existing ==> unchanged(c);
      }
    }
  }

  /** The merge loop over the components of one document. */
  method MergeBom(bom: Bom, compMap: map<string, Component>, out: seq<Component>,
                  ghost done: seq<Component>, ghost was: map<Component, CompView>)
    returns (compMap': map<string, Component>, out': seq<Component>)
    requires Progress(was, compMap, out, done) && forall c | c in bom.components :: c in was
    modifies was.Keys
    ensures Progress(was, compMap', out', done + bom.components)
  {
    compMap', out' := compMap, out;
    var n := |bom.components|;
    assert done + bom.components[..0] == done;
    for j := 0 to n
      invariant Progress(was, compMap', out', done + bom.components[..j])
    {
      assert done + bom.components[..j] + [bom.components[j]] == done + bom.components[..j + 1];
      compMap', out' := MergeComponent(bom.components[j], compMap', out', done + bom.components[..j], was);
    }
    assert bom.components[..n] == bom.components;
  }

  /**
   Merges documents: per reference the first-seen object survives and its occurrences become the
   union of all, also when the same object occurs several times; other objects stay as they were.
   */
  method MergeCboms(boms: seq<Bom>) returns (merged: Bom)
    requires forall c | c in AllComponents(boms) :: c.Valid()
    modifies AllComponents(boms)
    ensures forall c | c in AllComponents(boms) :: c.Valid()
    ensures Views(merged.components) == MergeViews(old(Views(AllComponents(boms))))
    ensures merged.edges == AllEdges(boms)
    ensures forall c | c in merged.components :: c in AllComponents(boms)
    ensures forall c | c in AllComponents(boms) && c !in merged.components :: c.View() == old(c.View())
  {
    var compMap: map<string, Component> := map[];
    var out: seq<Component> := [];
    var edges: set<Edge> := {};
    ghost var all := AllComponents(boms);
    ghost var was: map<Component, CompView> := map c | c in all :: c.View();
    for i := 0 to |boms|
      invariant Progress(was, compMap, out, AllComponents(boms[..i]))
      invariant edges == AllEdges(boms[..i])
    {
      assert boms[..i + 1][..i] == boms[..i];
      AllComponentsHas(boms, i);
      compMap, out := MergeBom(boms[i], compMap, out, AllComponents(boms[..i]), was);
      edges := edges + boms[i].edges;
    }
    assert boms[..|boms|] == boms;
    assert Was(was, all) == old(Views(all));
    assert forall c | c in all && c !in out :: Preserved(was, c, false);
    merged := Bom(out, edges);
  }

  lemma {:induction false} AllComponentsHas(boms: seq<Bom>, i: nat)
    requires i < |boms|
    ensures forall c | c in boms[i].components :: c in AllComponents(boms)
  {
    if i < |boms| - 1 {
      AllComponentsHas(boms[..|boms| - 1], i);
    }
  }
}
