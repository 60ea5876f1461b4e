/** The two builders of a document from static findings, as they allocate and update components. */
module CbomBuilders {
  import opened Common
  import opened CbomModel
  import opened CbomBuilder
  import opened CbomMerge

  /** The document of one finding. */
  method CodeFindingToCbom(f: Finding) returns (bom: Bom)
    ensures fresh(bom.components) && forall c | c in bom.components :: c.Valid()
    ensures Views(bom.components) == Single(f) && bom.edges == {EdgeOf(f)}
  {
    var target := new Component(FileRef(f.filePath), FileInfo(f.filePath),
                                Some([Occurrence(Key(f.filePath, f.line, None), None)]));
    var comp := new Component(f.ref, Describe(f), Some([Sighting(f)]));
    bom := Bom([target, comp], {Edge(target.ref, comp.ref)});
  }

  lemma AppendBom(boms: seq<Bom>, bom: Bom)
    ensures AllComponents(boms + [bom]) == AllComponents(boms) + bom.components
    ensures AllEdges(boms + [bom]) == AllEdges(boms) + bom.edges
  {
    assert (boms + [bom])[..|boms|] == boms;
  }

  lemma AppendFinding(fs: seq<Finding>, f: Finding)
    ensures Singles(fs + [f]) == Singles(fs) + Single(f) && EdgesOf(fs + [f]) == EdgesOf(fs) + {EdgeOf(f)}
  {
    assert (fs + [f])[..|fs|] == fs;
  }

  /** The documents `boms`, with components `all`, are those of the findings `fs`. */
  ghost predicate BuiltSingly(boms: seq<Bom>, all: seq<Component>, fs: seq<Finding>)
    reads all
  {
    && all == AllComponents(boms)
    && Views(all) == Singles(fs)
    && AllEdges(boms) == EdgesOf(fs)
    && forall c | c in all :: c.Valid()
  }

  lemma ViewsConcat(a: seq<Component>, b: seq<Component>)
    ensures Views(a + b) == Views(a) + Views(b)
  {
  }

  lemma OneMoreSingle(boms: seq<Bom>, all: seq<Component>, fs: seq<Finding>, bom: Bom, f: Finding)
    requires BuiltSingly(boms, all, fs) && Views(bom.components) == Single(f) && bom.edges == {EdgeOf(f)}
    requires forall c | c in bom.components :: c.Valid()
    ensures BuiltSingly(boms + [bom], all + bom.components, fs + [f])
  {
    AppendBom(boms, bom);
    AppendFinding(fs, f);
    ViewsConcat(all, bom.components);
  }

  /** The document to append for one more finding. */
  method AddSingle(ghost boms: seq<Bom>, ghost all: seq<Component>, ghost fs: seq<Finding>, f: Finding)
    returns (bom: Bom)
    requires BuiltSingly(boms, all, fs)
    ensures fresh(bom.components) && BuiltSingly(boms + [bom], all + bom.components, fs + [f])
  {
    bom := CodeFindingToCbom(f);
    assert BuiltSingly(boms, all, fs);
    OneMoreSingle(boms, all, fs, bom, f);
  }

  /** A document per finding. */
  method SingleBoms(fs: seq<Finding>) returns (boms: seq<Bom>, ghost all: seq<Component>)
    ensures BuiltSingly(boms, all, fs) && fresh(all)
  {
    boms, all := [], [];
    ghost var done: seq<Finding> := [];
    for i := 0 to |fs|
      invariant done == fs[..i] && fresh(all)
      invariant BuiltSingly(boms, all, done)
    {
      assert done + [fs[i]] == fs[..i + 1];
      var bom := AddSingle(boms, all, done, fs[i]);
      boms, all, done := boms + [bom], all + bom.components, done + [fs[i]];
    }
    assert done == fs;
  }

  /** The simple form: a document per finding, all merged. */
  method MergeOfSingles(fs: seq<Finding>) returns (merged: Bom)
    ensures Views(merged.components) == MergeViews(Singles(fs)) && merged.edges == EdgesOf(fs)
  {
    var boms;
    ghost var all;
    boms, all := SingleBoms(fs);
    merged := MergeCboms(boms);
  }

  // ----- The one-pass builder -----

  lemma {:induction false} SplitContents(assets: seq<CompView>, files: seq<CompView>)
    requires (forall c | c in assets :: c.info.AssetInfo?) && (forall c | c in files :: c.info.FileInfo?)
    ensures Assets(assets + files) == assets && Files(assets + files) == files
  {
    if assets != [] {
      var both := assets + files;
      assert both[0] == assets[0] && both[1..] == assets[1..] + files;
      SplitContents(assets[1..], files);
      assert Assets(both) == [assets[0]] + Assets(both[1..]) && Files(both) == [] + Files(both[1..]);
    } else if files != [] {
      assert assets + files == files && [] + files[1..] == files[1..];
      SplitContents([], files[1..]);
      assert Assets(files) == [] + Assets(files[1..]) && Files(files) == [files[0]] + Files(files[1..]);
    }
  }

  /** `algo_comps` holds the asset objects, and `algo_locs` the keys of their occurrences. */
  ghost predicate AssetIndex(comps: map<string, Component>, locs: map<string, set<Key>>, assets: seq<Component>)
    reads assets
  {
    && Indexed(comps, assets)
    && DistinctRefs(Views(assets))
    && forall c | c in assets :: AssetEntry(locs, c)
  }

  ghost predicate AssetEntry(locs: map<string, set<Key>>, c: Component)
    reads c
  {
    && c.info.AssetInfo? && c.evidence.Some? && c.locsCache.None?
    && c.ref in locs && locs[c.ref] == KeysOf(c.evidence.value)
  }

  /** `file_comps` holds the file objects, which carry no evidence. */
  ghost predicate FileIndex(comps: map<string, Component>, files: seq<Component>)
    reads files
  {
    && Indexed(comps, files)
    && forall c | c in files :: c.info.FileInfo? && c.evidence.None? && c.locsCache.None?
  }

  lemma IndexedHasRef(index: map<string, Component>, objects: seq<Component>, ref: string)
    requires Indexed(index, objects)
    ensures ref in index <==> HasRef(Views(objects), ref)
  {
    if ref in index {
      var k :| 0 <= k < |objects| && objects[k] == index[ref];
      assert Views(objects)[k] in Views(objects);
    }
    if HasRef(Views(objects), ref) {
      var v :| v in Views(objects) && v.ref == ref;
      var k :| 0 <= k < |objects| && Views(objects)[k] == v;
      assert objects[k] in objects;
    }
  }

  /** A finding in a file not seen before. */
  method NewFile(f: Finding, fileComps: map<string, Component>, files: seq<Component>)
    returns (target: Component)
    requires FileIndex(fileComps, files) && FileRef(f.filePath) !in fileComps
    ensures fresh(target) && target.ref == FileRef(f.filePath)
    ensures FileIndex(fileComps[target.ref := target], files + [target])
    ensures Views(files + [target]) == Views(files) + [FileView(f, [])]
  {
    target := new Component(FileRef(f.filePath), FileInfo(f.filePath), None);
  }

  /** A finding whose asset reference is new. */
  method NewAsset(f: Finding, comps: map<string, Component>, locs: map<string, set<Key>>, assets: seq<Component>)
    returns (comp: Component)
    requires AssetIndex(comps, locs, assets) && f.ref !in comps
    ensures fresh(comp) && comp.ref == f.ref
    ensures AssetIndex(comps[f.ref := comp], locs[f.ref := {Sighting(f).key}], assets + [comp])
    ensures Views(assets + [comp]) == Absorb(Views(assets), AssetView(f))
  {
    IndexedHasRef(comps, assets, f.ref);
    AbsorbAppends(Views(assets), AssetView(f));
    AbsorbDistinct(Views(assets), AssetView(f));
    comp := new Component(f.ref, Describe(f), Some([Sighting(f)]));
    assert Views(assets + [comp]) == Views(assets) + [AssetView(f)];
    assert KeysOf([Sighting(f)]) == {Sighting(f).key};
    assert Indexed(comps[f.ref := comp], assets + [comp]) by {
      assert comp !in assets;
    }
    forall c | c in assets + [comp] ensures AssetEntry(locs[f.ref := {Sighting(f).key}], c) {
      if c in assets {
        assert AssetEntry(locs, c) && comps[c.ref] == c;
      }
    }
  }

  /** What the known component must hold once one more finding has been taken in. */
  lemma KnownContents(f: Finding, comps: map<string, Component>, locs: map<string, set<Key>>,
                      assets: seq<Component>, k: nat)
    requires AssetIndex(comps, locs, assets) && k < |assets| && assets[k].ref == f.ref
    ensures AssetEntry(locs, assets[k]) && DistinctRefs(Absorb(Views(assets), AssetView(f)))
    ensures
      var v := Views(assets)[k];
      Absorb(Views(assets), AssetView(f))
        == Views(assets)[k := v.(occs := if Sighting(f).key in KeysOf(v.occs) then v.occs else v.occs + [Sighting(f)])]
    ensures forall m | 0 <= m < |assets| && m != k :: assets[m] != assets[k] && assets[m].ref != f.ref
  {
    var before := Views(assets);
    assert AssetEntry(locs, assets[k]);
    AbsorbUpdates(before, AssetView(f), k);
    AbsorbDistinct(before, AssetView(f));
    AddOne(before[k].occs, Sighting(f));
    forall m | 0 <= m < |assets| && m != k ensures assets[m] != assets[k] && assets[m].ref != f.ref {
      assert before[m].ref != before[k].ref;
    }
  }

  /** Appending one occurrence to one of the asset objects leaves the others alone. */
  method AppendOccurrence(comp: Component, occ: Occurrence, assets: seq<Component>, ghost k: nat)
    requires k < |assets| && assets[k] == comp && comp.evidence.Some?
    requires forall m | 0 <= m < |assets| && m != k :: assets[m] != comp
    modifies comp`evidence
    ensures comp.evidence == Some(old(comp.evidence.value) + [occ])
    ensures Views(assets) == old(Views(assets))[k := old(comp.View()).(occs := old(comp.evidence.value) + [occ])]
  {
    ghost var before := Views(assets);
    comp.evidence := Some(comp.evidence.value + [occ]);
    assert forall m | 0 <= m < |assets| && m != k :: assets[m].View() == before[m];
  }

  /** One more finding of a known asset: an occurrence is added unless its key is known. */
  method KnownAsset(f: Finding, comps: map<string, Component>, locs: map<string, set<Key>>, assets: seq<Component>)
    returns (locs': map<string, set<Key>>)
    requires AssetIndex(comps, locs, assets) && f.ref in comps
    modifies comps[f.ref]
    ensures AssetIndex(comps, locs', assets)
    ensures Views(assets) == Absorb(old(Views(assets)), AssetView(f))
  {
    var comp := comps[f.ref];
    ghost var k :| 0 <= k < |assets| && assets[k] == comp;
    KnownContents(f, comps, locs, assets, k);
    var occ := Sighting(f);
    locs' := locs;
    if occ.key !in locs[f.ref] {
      KeysOfAppend(comp.evidence.value, occ);
      AppendOccurrence(comp, occ, assets, k);
      locs' := locs[f.ref := locs[f.ref] + {occ.key}];
      forall c | c in assets ensures AssetEntry(locs', c) {
        if c != comp {
          assert old(AssetEntry(locs, c));
        }
      }
    }
  }

  /** The local variables of the one-pass builder; the file and asset lists are its dictionaries' values. */
  datatype Pass = Pass(
    fileComps: map<string, Component>, files: seq<Component>,
    algoComps: map<string, Component>, algoLocs: map<string, set<Key>>, assets: seq<Component>,
    edges: set<Edge>)
  {
    ghost predicate Ok()
      reads files, assets
    {
      FileIndex(fileComps, files) && AssetIndex(algoComps, algoLocs, assets)
    }

    ghost function Contents(): Built
      reads files, assets
    {
      Built(Views(files), Views(assets), edges)
    }
  }

  /** The file part of the loop's body. */
  method TakeFile(p: Pass, f: Finding) returns (p': Pass)
    requires p.Ok()
    ensures p'.Ok() && p' == p.(fileComps := p'.fileComps, files := p'.files)
    ensures Views(p'.files) == if HasRef(Views(p.files), FileRef(f.filePath)) then Views(p.files)
                               else Views(p.files) + [FileView(f, [])]
    ensures forall c | c in p'.files :: c in p.files || fresh(c)
  {
    var fileRef := FileRef(f.filePath);
    IndexedHasRef(p.fileComps, p.files, fileRef);
    p' := p;
    if fileRef !in p.fileComps {
      var target := NewFile(f, p.fileComps, p.files);
      p' := p.(fileComps := p.fileComps[fileRef := target], files := p.files + [target]);
    }
  }

  /** The object filed under an asset's reference is no file object. */
  lemma KindsApart(p: Pass, ref: string)
    requires p.Ok() && ref in p.algoComps
    ensures p.algoComps[ref] in p.assets && p.algoComps[ref] !in p.files
  {
    assert AssetEntry(p.algoLocs, p.algoComps[ref]);
  }

  /** The asset part of the loop's body; file objects are not concerned. */
  method TakeAsset(p: Pass, f: Finding) returns (p': Pass)
    requires p.Ok()
    modifies p.assets
    ensures p'.Ok() && p' == p.(algoComps := p'.algoComps, algoLocs := p'.algoLocs, assets := p'.assets)
    ensures Views(p'.assets) == Absorb(old(Views(p.assets)), AssetView(f))
    ensures Views(p.files) == old(Views(p.files))
    ensures forall c | c in p'.assets :: c in p.assets || fresh(c)
  {
    if f.ref !in p.algoComps {
      var comp := NewAsset(f, p.algoComps, p.algoLocs, p.assets);
      p' := p.(algoComps := p.algoComps[f.ref := comp], algoLocs := p.algoLocs[f.ref := {Sighting(f).key}],
               assets := p.assets + [comp]);
    } else {
      KindsApart(p, f.ref);
      ghost var files := Views(p.files);
      var locs := KnownAsset(f, p.algoComps, p.algoLocs, p.assets);
      assert Views(p.files) == files && FileIndex(p.fileComps, p.files);
      p' := p.(algoLocs := locs);
    }
  }

  /** The body of the builder's loop. */
  method TakeFinding(p: Pass, f: Finding) returns (p': Pass)
    requires p.Ok()
    modifies p.assets
    ensures p'.Ok() && p'.Contents() == OnePassStep(old(p.Contents()), f)
    ensures forall c | c in p'.files :: c in p.files || fresh(c)
    ensures forall c | c in p'.assets :: c in p.assets || fresh(c)
  {
    if f.findingType == "hardcoded_secret" || f.findingType == "synthetic_fixture" {
      return p;
    }
    p' := TakeFile(p, f);
    p' := TakeAsset(p', f);
    p' := p'.(edges := p'.edges + {Edge(FileRef(f.filePath), f.ref)});
  }

  /** The finished document: the values of the two dictionaries, assets first. */
  method Assemble(p: Pass) returns (bom: Bom)
    requires p.Ok()
    ensures bom.components == p.assets + p.files && bom.edges == p.edges
    ensures forall c | c in bom.components :: c.Valid()
    ensures Assets(Views(bom.components)) == Views(p.assets) && Files(Views(bom.components)) == Views(p.files)
  {
    assert forall c | c in p.assets :: AssetEntry(p.algoLocs, c);
    bom := Bom(p.assets + p.files, p.edges);
    assert Views(bom.components) == Views(p.assets) + Views(p.files);
    SplitContents(Views(p.assets), Views(p.files));
  }

  /**
   The one-pass builder builds what `OnePass` prescribes.  Its components are listed by kind;
   the source keeps them in one sorted set.
   */
  method CodeFindingsToCbom(fs: seq<Finding>) returns (bom: Bom)
    ensures forall c | c in bom.components :: fresh(c) && c.Valid()
    ensures Assets(Views(bom.components)) == OnePass(fs).assets
    ensures Files(Views(bom.components)) == OnePass(fs).files
    ensures bom.edges == OnePass(fs).edges
  {
    var p := Pass(map[], [], map[], map[], [], {});
    for i := 0 to |fs|
      invariant p.Ok() && (forall c | c in p.files :: fresh(c)) && (forall c | c in p.assets :: fresh(c))
      invariant p.Contents() == OnePass(fs[..i])
    {
      assert fs[..i + 1][..i] == fs[..i];
      p := TakeFinding(p, fs[i]);
    }
    assert fs[..|fs|] == fs;
    bom := Assemble(p);
  }
}
