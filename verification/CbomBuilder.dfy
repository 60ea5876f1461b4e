/**
 The two builders of a bill of materials from static findings (backend/scanners/cbom_mapping.py):
 one document per finding merged afterwards, and the one-pass builder meant to replace that.
 Here both are functions on contents, and the fast one is shown to refine the simple one.
 */
module CbomBuilder {
  import opened Common
  import opened CbomModel

  datatype Finding = Finding(
    ref: string, filePath: string, line: Option<int>, algorithm: string, keySize: Option<int>,
    findingType: string, confidence: string, library: Option<string>, detectionMethod: string,
    needsReview: bool, reason: Option<string>, fingerprint: Option<string>,
    ruleId: Option<string>, apiSymbol: Option<string>)

  function FileRef(path: string): string { "code:file@" + path }

  function KeySizeText(f: Finding): Option<string> {
    if f.keySize.Some? && f.keySize.value != 0 then Some(Decimal(f.keySize.value)) else None
  }

  /** Name, properties and crypto properties both builders give the asset of a finding. */
  function Describe(f: Finding): Info {
    var algo, size := if f.algorithm != "" then f.algorithm else "unknown", KeySizeText(f);
    var hardcoded := f.findingType == "hardcoded_key";
    AssetInfo(
      if hardcoded then (if algo != "unknown" then "Hardcoded " + algo + " Key" else "Hardcoded Key")
      else if size.Some? then algo + "-" + size.value else algo,
      if hardcoded then PrivateKeyMaterial else Algorithm(size),
      f.filePath, algo, OrElse(size, "unknown"), f.confidence, Either(f.library, None), f.detectionMethod,
      f.needsReview, Either(f.reason, None), Either(f.fingerprint, None))
  }

  function Sighting(f: Finding): Occurrence {
    Occurrence(Key(f.filePath, f.line, Either(f.apiSymbol, f.ruleId)), None)
  }

  function AssetView(f: Finding): CompView {
    CompView(f.ref, Describe(f), [Sighting(f)])
  }

  /** The file component; only the one-document-per-finding builder records an occurrence on it. */
  function FileView(f: Finding, occs: seq<Occurrence>): CompView {
    CompView(FileRef(f.filePath), FileInfo(f.filePath), occs)
  }

  function EdgeOf(f: Finding): Edge { Edge(FileRef(f.filePath), f.ref) }

  /** The components of the document built for a single finding. */
  function Single(f: Finding): seq<CompView> {
    [FileView(f, [Occurrence(Key(f.filePath, f.line, None), None)]), AssetView(f)]
  }

  predicate Skipped(f: Finding) {
    f.findingType == "hardcoded_secret" || f.findingType == "synthetic_fixture"
  }

  function Kept(fs: seq<Finding>): seq<Finding> {
    if fs == [] then []
    else Kept(fs[..|fs| - 1]) + if Skipped(fs[|fs| - 1]) then [] else [fs[|fs| - 1]]
  }

  // ----- The simple form: one document per finding, then merge -----

  function Singles(fs: seq<Finding>): seq<CompView> {
    if fs == [] then [] else Singles(fs[..|fs| - 1]) + Single(fs[|fs| - 1])
  }

  function EdgesOf(fs: seq<Finding>): set<Edge> {
    set f | f in fs :: EdgeOf(f)
  }

  // ----- The fast form: one pass over the findings -----

  datatype Built = Built(files: seq<CompView>, assets: seq<CompView>, edges: set<Edge>)

  function OnePassStep(b: Built, f: Finding): Built {
    if Skipped(f) then b
    else Built(
      if HasRef(b.files, FileRef(f.filePath)) then b.files else b.files + [FileView(f, [])],
      Absorb(b.assets, AssetView(f)),
      b.edges + {EdgeOf(f)})
  }

  function OnePass(fs: seq<Finding>): Built {
    if fs == [] then Built([], [], {}) else OnePassStep(OnePass(fs[..|fs| - 1]), fs[|fs| - 1])
  }

  // ----- Refinement -----

  function Assets(cs: seq<CompView>): seq<CompView> {
    if cs == [] then [] else (if cs[0].info.AssetInfo? then [cs[0]] else []) + Assets(cs[1..])
  }

  function Files(cs: seq<CompView>): seq<CompView> {
    if cs == [] then [] else (if cs[0].info.FileInfo? then [cs[0]] else []) + Files(cs[1..])
  }

  function FileRefs(cs: seq<CompView>): seq<string> {
    if cs == [] then [] else (if cs[0].info.FileInfo? then [cs[0].ref] else []) + FileRefs(cs[1..])
  }

  function Refs(cs: seq<CompView>): seq<string> {
    seq(|cs|, i requires 0 <= i < |cs| => cs[i].ref)
  }

  /** No finding's asset reference is the reference of a scanned file. */
  predicate Disjoint(fs: seq<Finding>) {
    forall f, g | f in fs && g in fs :: f.ref != FileRef(g.filePath)
  }

  predicate FromFinding(c: CompView, f: Finding) {
    c.ref == if c.info.FileInfo? then FileRef(f.filePath) else f.ref
  }

  /** File components carry references of scanned files and asset components those of findings. */
  predicate Sourced(cs: seq<CompView>, fs: seq<Finding>) {
    forall c | c in cs :: exists f :: f in fs && FromFinding(c, f)
  }

  lemma {:induction false} AbsorbAsset(cs: seq<CompView>, c: CompView)
    requires c.info.AssetInfo?
    requires forall d | d in cs :: d.ref == c.ref ==> d.info.AssetInfo?
    ensures Assets(Absorb(cs, c)) == Absorb(Assets(cs), c)
    ensures FileRefs(Absorb(cs, c)) == FileRefs(cs)
  {
    if cs != [] {
      if cs[0].ref == c.ref {
        assert cs[0] in cs && Absorb(cs, c)[1..] == cs[1..];
      } else {
        AbsorbAsset(cs[1..], c);
        assert Absorb(cs, c)[1..] == Absorb(cs[1..], c);
        assert cs[0].info.AssetInfo? ==> Assets(cs)[1..] == Assets(cs[1..]);
        assert cs[0].info.FileInfo? ==> Assets(cs) == Assets(cs[1..]);
      }
    }
  }

  lemma {:induction false} AbsorbFile(cs: seq<CompView>, c: CompView)
    requires c.info.FileInfo?
    requires forall d | d in cs :: d.ref == c.ref ==> d.info.FileInfo?
    ensures Assets(Absorb(cs, c)) == Assets(cs)
    ensures FileRefs(Absorb(cs, c)) == if c.ref in FileRefs(cs) then FileRefs(cs) else FileRefs(cs) + [c.ref]
  {
    if cs != [] && cs[0].ref != c.ref {
      AbsorbFile(cs[1..], c);
    }
  }

  lemma {:induction false} AbsorbShapes(cs: seq<CompView>, c: CompView, d: CompView)
    requires d in Absorb(cs, c)
    ensures (exists e :: e in cs && e.ref == d.ref && e.info == d.info) || (d.ref == c.ref && d.info == c.info)
  {
    if cs != [] && cs[0].ref != c.ref && d in Absorb(cs[1..], c) {
      AbsorbShapes(cs[1..], c, d);
      if e :| e in cs[1..] && e.ref == d.ref && e.info == d.info {
        assert e in cs;
      }
    } else if cs != [] {
      assert cs[0] in cs;
    }
  }

  lemma AbsorbSourced(cs: seq<CompView>, c: CompView, fs: seq<Finding>, f: Finding)
    requires Sourced(cs, fs) && f in fs && FromFinding(c, f)
    ensures Sourced(Absorb(cs, c), fs)
  {
    forall d | d in Absorb(cs, c) ensures exists g :: g in fs && FromFinding(d, g) {
      AbsorbShapes(cs, c, d);
      if e :| e in cs && e.ref == d.ref && e.info == d.info {
        var g :| g in fs && FromFinding(e, g);
        assert FromFinding(d, g);
      } else {
        assert FromFinding(d, f);
      }
    }
  }

  /** Under disjoint references, what is already there under a file or asset reference is of that sort. */
  lemma SortByRef(cs: seq<CompView>, fs: seq<Finding>, c: CompView, f: Finding)
    requires Sourced(cs, fs) && Disjoint(fs) && f in fs && FromFinding(c, f)
    ensures forall d | d in cs :: d.ref == c.ref ==> (d.info.FileInfo? <==> c.info.FileInfo?)
  {
    forall d | d in cs && d.ref == c.ref ensures d.info.FileInfo? <==> c.info.FileInfo? {
      var g :| g in fs && FromFinding(d, g);
      assert f.ref != FileRef(g.filePath) && g.ref != FileRef(f.filePath);
    }
  }

  lemma {:induction false} RefsMember(cs: seq<CompView>, ref: string)
    ensures ref in Refs(cs) <==> HasRef(cs, ref)
  {
    if HasRef(cs, ref) {
      var c :| c in cs && c.ref == ref;
      var i :| 0 <= i < |cs| && cs[i] == c;
      assert Refs(cs)[i] == ref;
    }
  }

  /** One more finding: both forms take its file and its asset in the same way. */
  lemma RefinesStep(m: seq<CompView>, b: Built, fs: seq<Finding>, f: Finding)
    requires Disjoint(fs) && Sourced(m, fs) && f in fs
    requires Assets(m) == b.assets && FileRefs(m) == Refs(b.files) && !Skipped(f)
    ensures
      var m' := Absorb(Absorb(m, Single(f)[0]), Single(f)[1]);
      var b' := OnePassStep(b, f);
      Assets(m') == b'.assets && FileRefs(m') == Refs(b'.files) && Sourced(m', fs)
  {
    var file, asset := Single(f)[0], Single(f)[1];
    var m1 := Absorb(m, file);
    SortByRef(m, fs, file, f);
    AbsorbFile(m, file);
    RefsMember(b.files, file.ref);
    AbsorbSourced(m, file, fs, f);
    SortByRef(m1, fs, asset, f);
    AbsorbAsset(m1, asset);
    AbsorbSourced(m1, asset, fs, f);
  }

  lemma {:induction false} MergeOneMore(before: seq<Finding>, f: Finding)
    ensures MergeViews(Singles(before + [f])) == Absorb(Absorb(MergeViews(Singles(before)), Single(f)[0]), Single(f)[1])
  {
    MergeViewsStep(Singles(before), Single(f)[0]);
    MergeViewsStep(Singles(before) + [Single(f)[0]], Single(f)[1]);
    assert (before + [f])[..|before|] == before;
    assert Singles(before + [f]) == Singles(before) + [Single(f)[0]] + [Single(f)[1]];
  }

  lemma {:induction false} RefinesWhenDisjoint(fs: seq<Finding>)
    requires Disjoint(Kept(fs))
    ensures
      var m, b := MergeViews(Singles(Kept(fs))), OnePass(fs);
      Assets(m) == b.assets && FileRefs(m) == Refs(b.files) && Sourced(m, Kept(fs))
  {
    if fs != [] {
      var init, f := fs[..|fs| - 1], fs[|fs| - 1];
      assert forall g | g in Kept(init) :: g in Kept(fs);
      RefinesWhenDisjoint(init);
      if Skipped(f) {
        assert Kept(fs) == Kept(init);
      } else {
        assert Kept(fs) == Kept(init) + [f];
        MergeOneMore(Kept(init), f);
        RefinesStep(MergeViews(Singles(Kept(init))), OnePass(init), Kept(fs), f);
      }
    }
  }

  lemma {:induction false} OnePassCovers(fs: seq<Finding>, f: Finding)
    requires f in Kept(fs)
    ensures HasRef(OnePass(fs).files, FileRef(f.filePath)) && HasRef(OnePass(fs).assets, f.ref)
  {
    var init, last := fs[..|fs| - 1], fs[|fs| - 1];
    var b, b' := OnePass(init), OnePass(fs);
    if f in Kept(init) {
      OnePassCovers(init, f);
      FirstInfoExists(b.assets, f.ref);
      if !Skipped(last) {
        AbsorbFirst(b.assets, AssetView(last), f.ref);
        var c :| c in b.files && c.ref == FileRef(f.filePath);
        assert c in b'.files;
      }
    } else {
      assert f == last && !Skipped(f);
      AbsorbFirst(b.assets, AssetView(f), f.ref);
      assert b'.files == b.files || b'.files[|b.files|] == FileView(f, []);
    }
    FirstInfoExists(b'.assets, f.ref);
  }

  lemma {:induction false} FileRefsMember(cs: seq<CompView>, ref: string)
    ensures ref in FileRefs(cs) <==> exists c :: c in cs && c.info.FileInfo? && c.ref == ref
  {
    if cs != [] {
      FileRefsMember(cs[1..], ref);
      assert cs == [cs[0]] + cs[1..];
    }
  }

  lemma {:induction false} AssetsMember(cs: seq<CompView>, c: CompView)
    ensures c in Assets(cs) <==> c in cs && c.info.AssetInfo?
  {
    if cs != [] {
      AssetsMember(cs[1..], c);
      assert cs == [cs[0]] + cs[1..];
    }
  }

  /**
   The one-pass builder refines the simple one: the same assets in the same order with the same
   first-seen description and the same occurrences, and the same file references.  This holds
   exactly when no asset reference of a kept finding is the reference of a scanned file.
   */
  lemma {:induction false} OnePassRefinesMerge(fs: seq<Finding>)
    ensures
      var merged, built := MergeViews(Singles(Kept(fs))), OnePass(fs);
      (Assets(merged) == built.assets && FileRefs(merged) == Refs(built.files)) <==> Disjoint(Kept(fs))
  {
    var m, b := MergeViews(Singles(Kept(fs))), OnePass(fs);
    if Disjoint(Kept(fs)) {
      RefinesWhenDisjoint(fs);
    } else if Assets(m) == b.assets && FileRefs(m) == Refs(b.files) {
      var f, g :| f in Kept(fs) && g in Kept(fs) && f.ref == FileRef(g.filePath);
      OnePassCovers(fs, f);
      OnePassCovers(fs, g);
      var asset :| asset in b.assets && asset.ref == f.ref;
      AssetsMember(m, asset);
      RefsMember(b.files, f.ref);
      FileRefsMember(m, f.ref);
      var file :| file in m && file.info.FileInfo? && file.ref == f.ref;
      MergeDistinct(Singles(Kept(fs)));
      assert false;
    }
  }

  /** The file-to-asset edges of the one-pass builder are those of all the single documents together. */
  lemma {:induction false} OnePassEdges(fs: seq<Finding>)
    ensures OnePass(fs).edges == EdgesOf(Kept(fs))
  {
    if fs != [] {
      OnePassEdges(fs[..|fs| - 1]);
    }
  }

  // ----- What a finding turns into -----

  /** The finding has a key size: a number other than zero. */
  predicate Sized(f: Finding) {
    f.keySize.Some? && f.keySize.value != 0
  }

  /** A text that is there and not empty. */
  function Given(text: Option<string>): Option<string> {
    if text == Some("") then None else text
  }

  /** The asset of a finding tells where it was found, what it is called and what it is. */
  lemma AssetOfFinding(f: Finding)
    ensures
      var i := Describe(f);
      && i.AssetInfo? && i.file == f.filePath && i.confidence == f.confidence
      && i.detectionMethod == f.detectionMethod && i.needsReview == f.needsReview
      && i.library == Given(f.library) && i.reason == Given(f.reason) && i.fingerprint == Given(f.fingerprint)
      && (f.algorithm != "" ==> i.algorithm == f.algorithm) && (f.algorithm == "" ==> i.algorithm == "unknown")
      && (Sized(f) ==> Reading(i.keySize) == f.keySize.value) && (!Sized(f) ==> i.keySize == "unknown")
      && (i.kind == PrivateKeyMaterial <==> f.findingType == "hardcoded_key")
      && (i.kind.Algorithm? ==> i.kind.parameterSet == if Sized(f) then Some(i.keySize) else None)
      && i.name == (
           if f.findingType == "hardcoded_key" && f.algorithm in ["", "unknown"] then "Hardcoded Key"
           else if f.findingType == "hardcoded_key" then "Hardcoded " + f.algorithm + " Key"
           else if Sized(f) then i.algorithm + "-" + i.keySize
           else i.algorithm)
  {
    if Sized(f) {
      DecimalRoundTrip(f.keySize.value);
      NeverEmpty(f.keySize.value);
    }
  }

  lemma NeverEmpty(n: int)
    ensures Decimal(n) != ""
  {
    DigitsOfDecimal(if n < 0 then -n else n);
  }

  /** The document of a finding: its file and its asset, each seen at the finding's place, and an edge between them. */
  lemma DocumentOfFinding(f: Finding)
    ensures |Single(f)| == 2 && Single(f)[0].ref == "code:file@" + f.filePath && Single(f)[1].ref == f.ref
    ensures EdgeOf(f) == Edge("code:file@" + f.filePath, f.ref)
    ensures KeysOf(Single(f)[0].occs) == {Key(f.filePath, f.line, None)}
    ensures KeysOf(Single(f)[1].occs) == {Key(f.filePath, f.line,
              if f.apiSymbol.Some? && f.apiSymbol.value != "" then f.apiSymbol else f.ruleId)}
  {
  }

  /** Only two kinds of findings are passed over. */
  lemma {:induction false} KeptMember(fs: seq<Finding>, f: Finding)
    ensures f in Kept(fs) <==> f in fs && f.findingType !in ["hardcoded_secret", "synthetic_fixture"]
  {
    if fs != [] {
      KeptMember(fs[..|fs| - 1], f);
      assert fs == fs[..|fs| - 1] + [fs[|fs| - 1]];
    }
  }
}
