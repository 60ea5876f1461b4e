/**
 The contents of a cryptographic bill of materials as far as building and merging touch them
 (backend/scanners/cbom_mapping.py), and what merging means on those contents.
 */
module CbomModel {
  import opened Common

  /** What makes an occurrence a duplicate: location, line and additional context. */
  datatype Key = Key(location: string, line: Option<int>, context: Option<string>)

  /** An occurrence; the symbol is a field that deduplication ignores. */
  datatype Occurrence = Occurrence(key: Key, symbol: Option<string>)

  datatype Kind = PrivateKeyMaterial | Algorithm(parameterSet: Option<string>)

  /** Everything about a component but its reference and its occurrences. */
  datatype Info =
    | FileInfo(path: string)
    | AssetInfo(
        name: string, kind: Kind, file: string, algorithm: string, keySize: string, confidence: string,
        library: Option<string>, detectionMethod: string, needsReview: bool,
        reason: Option<string>, fingerprint: Option<string>)

  datatype CompView = CompView(ref: string, info: Info, occs: seq<Occurrence>)

  /** A dependency edge: the file component and the asset found in it. */
  datatype Edge = Edge(dependent: string, asset: string)

  function KeysOf(occs: seq<Occurrence>): set<Key> {
    set o | o in occs :: o.key
  }

  /** Appends those occurrences of `more` whose key is not there yet. */
  function AddNew(base: seq<Occurrence>, more: seq<Occurrence>): (r: seq<Occurrence>)
    ensures base <= r && KeysOf(r) == KeysOf(base) + KeysOf(more)
    decreases |more|
  {
    if more == [] then base
    else
      var first := more[0];
      assert more == [first] + more[1..];
      AddNew(if first.key in KeysOf(base) then base else base + [first], more[1..])
  }

  /** Adding occurrences whose keys are all there changes nothing. */
  lemma {:induction false} AddKnown(base: seq<Occurrence>, more: seq<Occurrence>)
    requires KeysOf(more) <= KeysOf(base)
    ensures AddNew(base, more) == base
    decreases |more|
  {
    if more != [] {
      assert more[0].key in KeysOf(more);
      assert KeysOf(more[1..]) <= KeysOf(more);
      AddKnown(base, more[1..]);
    }
  }

  lemma {:induction false} AddNewStepwise(base: seq<Occurrence>, more: seq<Occurrence>, o: Occurrence)
    ensures AddNew(base, more + [o]) == AddNew(AddNew(base, more), [o])
    decreases |more|
  {
    if more == [] {
      assert more + [o] == [o];
    } else {
      var base' := if more[0].key in KeysOf(base) then base else base + [more[0]];
      assert (more + [o])[1..] == more[1..] + [o];
      AddNewStepwise(base', more[1..], o);
    }
  }

  // ----- Merging components -----

  predicate HasRef(cs: seq<CompView>, ref: string) {
    exists c :: c in cs && c.ref == ref
  }

  /** Takes one more component in: first-seen wins, later ones contribute their new occurrences. */
  function Absorb(acc: seq<CompView>, c: CompView): seq<CompView> {
    if acc == [] then [c]
    else if acc[0].ref == c.ref then [acc[0].(occs := AddNew(acc[0].occs, c.occs))] + acc[1..]
    else [acc[0]] + Absorb(acc[1..], c)
  }

  function MergeViews(cs: seq<CompView>): seq<CompView> {
    if cs == [] then [] else Absorb(MergeViews(cs[..|cs| - 1]), cs[|cs| - 1])
  }

  lemma MergeViewsStep(cs: seq<CompView>, c: CompView)
    ensures MergeViews(cs + [c]) == Absorb(MergeViews(cs), c)
  {
    assert (cs + [c])[..|cs|] == cs;
  }

  predicate DistinctRefs(cs: seq<CompView>) {
    forall i, j | 0 <= i < j < |cs| :: cs[i].ref != cs[j].ref
  }

  // ----- What a list of components says about one reference -----

  function KeysFor(cs: seq<CompView>, ref: string): set<Key> {
    set c, k | c in cs && c.ref == ref && k in KeysOf(c.occs) :: k
  }

  /** The component first seen under a reference. */
  function FirstInfo(cs: seq<CompView>, ref: string): Option<Info> {
    if cs == [] then None else if cs[0].ref == ref then Some(cs[0].info) else FirstInfo(cs[1..], ref)
  }

  lemma {:induction false} FirstInfoOfConcat(a: seq<CompView>, b: seq<CompView>, ref: string)
    ensures FirstInfo(a + b, ref) == if FirstInfo(a, ref).Some? then FirstInfo(a, ref) else FirstInfo(b, ref)
  {
    if a == [] {
      assert a + b == b;
    } else {
      assert (a + b)[1..] == a[1..] + b;
      FirstInfoOfConcat(a[1..], b, ref);
    }
  }

  lemma {:induction false} FirstInfoExists(cs: seq<CompView>, ref: string)
    ensures FirstInfo(cs, ref).Some? <==> HasRef(cs, ref)
  {
    if cs != [] {
      FirstInfoExists(cs[1..], ref);
      assert cs[0] in cs;
      if HasRef(cs, ref) && cs[0].ref != ref {
        var c :| c in cs && c.ref == ref;
        assert c in cs[1..];
      }
      if HasRef(cs[1..], ref) {
        var c :| c in cs[1..] && c.ref == ref;
        assert c in cs;
      }
    }
  }

  lemma KeysForConcat(a: seq<CompView>, b: seq<CompView>, ref: string)
    ensures KeysFor(a + b, ref) == KeysFor(a, ref) + KeysFor(b, ref)
  {
    assert forall c :: c in a + b <==> c in a || c in b;
  }

  lemma KeysForOne(c: CompView, ref: string)
    ensures KeysFor([c], ref) == if c.ref == ref then KeysOf(c.occs) else {}
  {
  }

  lemma {:induction false} AbsorbKeys(acc: seq<CompView>, c: CompView, ref: string)
    ensures KeysFor(Absorb(acc, c), ref) == KeysFor(acc, ref) + KeysFor([c], ref)
  {
    if acc != [] {
      var head, tail := acc[0], acc[1..];
      assert acc == [head] + tail;
      KeysForConcat([head], tail, ref);
      if head.ref == c.ref {
        var head' := head.(occs := AddNew(head.occs, c.occs));
        KeysForConcat([head'], tail, ref);
        KeysForOne(head', ref);
        KeysForOne(head, ref);
        KeysForOne(c, ref);
      } else {
        AbsorbKeys(tail, c, ref);
        KeysForConcat([head], Absorb(tail, c), ref);
      }
    }
  }

  lemma {:induction false} AbsorbFirst(acc: seq<CompView>, c: CompView, ref: string)
    ensures FirstInfo(Absorb(acc, c), ref)
         == if FirstInfo(acc, ref).Some? then FirstInfo(acc, ref) else FirstInfo([c], ref)
  {
    if acc != [] && acc[0].ref != c.ref {
      AbsorbFirst(acc[1..], c, ref);
    }
  }

  /** Under every reference the result has the first-seen component and the union of all occurrence keys. */
  lemma {:induction false} MergePreserves(cs: seq<CompView>, ref: string)
    ensures FirstInfo(MergeViews(cs), ref) == FirstInfo(cs, ref)
    ensures KeysFor(MergeViews(cs), ref) == KeysFor(cs, ref)
  {
    if cs != [] {
      var init, last := cs[..|cs| - 1], cs[|cs| - 1];
      assert cs == init + [last];
      MergePreserves(init, ref);
      AbsorbKeys(MergeViews(init), last, ref);
      AbsorbFirst(MergeViews(init), last, ref);
      FirstInfoOfConcat(init, [last], ref);
      KeysForConcat(init, [last], ref);
    }
  }

  lemma {:induction false} AbsorbDistinct(acc: seq<CompView>, c: CompView)
    requires DistinctRefs(acc)
    ensures DistinctRefs(Absorb(acc, c))
    ensures forall d | d in Absorb(acc, c) :: d.ref == c.ref || HasRef(acc, d.ref)
  {
    if acc != [] && acc[0].ref != c.ref {
      AbsorbDistinct(acc[1..], c);
      forall d | d in Absorb(acc[1..], c) ensures d.ref != acc[0].ref {
        if d.ref != c.ref {
          var e :| e in acc[1..] && e.ref == d.ref;
        }
      }
    }
    forall d | d in Absorb(acc, c) ensures d.ref == c.ref || HasRef(acc, d.ref) {
      if acc != [] && acc[0].ref != c.ref && d in Absorb(acc[1..], c) && d.ref != c.ref {
        var e :| e in acc[1..] && e.ref == d.ref;
        assert e in acc;
      }
    }
  }

  /** No reference occurs twice in a merged document. */
  lemma {:induction false} MergeDistinct(cs: seq<CompView>)
    ensures DistinctRefs(MergeViews(cs))
  {
    if cs != [] {
      MergeDistinct(cs[..|cs| - 1]);
      AbsorbDistinct(MergeViews(cs[..|cs| - 1]), cs[|cs| - 1]);
    }
  }

  /** Merging is a union: which references there are, what was first seen under each, and its keys. */
  ghost predicate SameContents(a: seq<CompView>, b: seq<CompView>) {
    forall ref: string :: KeysFor(a, ref) == KeysFor(b, ref) && FirstInfo(a, ref) == FirstInfo(b, ref)
  }

  /** Merging in stages gives what merging everything at once gives. */
  lemma MergeGrouping(a: seq<CompView>, b: seq<CompView>)
    ensures SameContents(MergeViews(MergeViews(a) + MergeViews(b)), MergeViews(a + b))
  {
    var staged := MergeViews(a) + MergeViews(b);
    forall ref: string
      ensures KeysFor(MergeViews(staged), ref) == KeysFor(MergeViews(a + b), ref)
      ensures FirstInfo(MergeViews(staged), ref) == FirstInfo(MergeViews(a + b), ref)
    {
      MergePreserves(a, ref);
      MergePreserves(b, ref);
      MergePreserves(a + b, ref);
      MergePreserves(staged, ref);
      KeysForConcat(a, b, ref);
      KeysForConcat(MergeViews(a), MergeViews(b), ref);
      FirstInfoOfConcat(a, b, ref);
      FirstInfoOfConcat(MergeViews(a), MergeViews(b), ref);
    }
  }

  /** The references and their occurrence keys do not depend on the order of the inputs. */
  lemma MergeOrderIndependent(a: seq<CompView>, b: seq<CompView>, ref: string)
    requires multiset(a) == multiset(b)
    ensures KeysFor(MergeViews(a), ref) == KeysFor(MergeViews(b), ref)
    ensures HasRef(MergeViews(a), ref) <==> HasRef(MergeViews(b), ref)
  {
    MergePreserves(a, ref);
    MergePreserves(b, ref);
    assert forall c :: c in a <==> c in multiset(a);
    assert forall c :: c in b <==> c in multiset(b);
    FirstInfoExists(a, ref);
    FirstInfoExists(b, ref);
    FirstInfoExists(MergeViews(a), ref);
    FirstInfoExists(MergeViews(b), ref);
    assert HasRef(a, ref) <==> HasRef(b, ref);
  }
}
