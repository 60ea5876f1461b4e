/**
 What a pass changes, read off the two trees: a comparison of syntax trees that knows nothing of
 weak tokens or of the transformer (backend/scanners/patch_generator.py:46-147), and the proof that
 the transformer's records are exactly the differences it leaves.
 */
module PatchChanges {
  import opened Common
  import opened PatchModel

  /** A difference between two trees at corresponding places; `Elsewhere` stands for any other one. */
  datatype Change =
    | MethodRenamed(pos: nat, owner: string, before: string, after: string)
    | ArgumentChanged(pos: nat, arg: Option<string>, given: Const, replacement: Const)
    | ImportRenamed(at: nat, before: string, after: string)
    | Elsewhere

  // ----- Comparing trees -----

  /** All differences, in the order in which the places are visited. */
  function Differences(n: Node, n': Node): seq<Change>
    decreases n, 1
  {
    match n
    case Call(pos, func, args, keywords) =>
      if !n'.Call? || n'.pos != pos then [Elsewhere]
      else CalleeDifferences(pos, func, n'.func) + DifferencesAll(args, n'.args)
           + KeywordDifferences(pos, keywords, n'.keywords)
    case Keyword(arg, value) =>
      if !n'.Keyword? || n'.arg != arg then [Elsewhere] else Differences(value, n'.value)
    case Attribute(value, attr) =>
      if !n'.Attribute? || n'.attr != attr then [Elsewhere] else Differences(value, n'.target)
    case Name(_) => if n' == n then [] else [Elsewhere]
    case Constant(_) => if n' == n then [] else [Elsewhere]
    case ImportFrom(at, m, names) =>
      if !n'.ImportFrom? || n'.at != at || n'.importedModule != m then [Elsewhere]
      else AliasDifferences(at, names, n'.names)
    case Generic(kind, children) =>
      if !n'.Generic? || n'.kind != kind then [Elsewhere] else DifferencesAll(children, n'.children)
  }

  /** The callee of a call: on a name the method may have been renamed. */
  function CalleeDifferences(pos: nat, f: Node, f': Node): seq<Change>
    decreases f, 2
  {
    if f.Attribute? && f.target.Name? && f'.Attribute? && f'.target == f.target then
      if f.attr == f'.attr then [] else [MethodRenamed(pos, f.target.id, f.attr, f'.attr)]
    else Differences(f, f')
  }

  function DifferencesAll(ns: seq<Node>, ns': seq<Node>): seq<Change>
    decreases ns, 0
  {
    if ns == [] || ns' == [] then (if ns == ns' then [] else [Elsewhere])
    else Differences(ns[0], ns'[0]) + DifferencesAll(ns[1..], ns'[1..])
  }

  /** The keyword arguments of a call: a constant may have been replaced. */
  function KeywordDifferences(pos: nat, kws: seq<Node>, kws': seq<Node>): seq<Change>
    decreases kws, 0
  {
    if kws == [] || kws' == [] then (if kws == kws' then [] else [Elsewhere])
    else KeywordDifference(pos, kws[0], kws'[0]) + KeywordDifferences(pos, kws[1..], kws'[1..])
  }

  function KeywordDifference(pos: nat, kw: Node, kw': Node): seq<Change>
    decreases kw, 2
  {
    if kw.Keyword? && kw.value.Constant? && kw'.Keyword? && kw'.value.Constant? && kw'.arg == kw.arg then
      if kw.value == kw'.value then [] else [ArgumentChanged(pos, kw.arg, kw.value.literal, kw'.value.literal)]
    else Differences(kw, kw')
  }

  function AliasDifferences(at: nat, names: seq<Alias>, names': seq<Alias>): seq<Change> {
    if names == [] || names' == [] then (if names == names' then [] else [Elsewhere])
    else AliasDifference(at, names[0], names'[0]) + AliasDifferences(at, names[1..], names'[1..])
  }

  function AliasDifference(at: nat, a: Alias, a': Alias): seq<Change> {
    if a.asName != a'.asName then [Elsewhere]
    else if a.name == a'.name then []
    else [ImportRenamed(at, a.name, a'.name)]
  }

  // ----- The comparison misses nothing -----

  /** Trees without differences are equal, and conversely. */
  lemma {:induction false} NoDifferencesIff(n: Node, n': Node)
    ensures Differences(n, n') == [] <==> n == n'
    decreases n, 1
  {
    match n
    case Call(pos, func, args, keywords) =>
      if n'.Call? {
        NoCalleeDifferencesIff(pos, func, n'.func);
        NoDifferencesAllIff(args, n'.args);
        NoKeywordDifferencesIff(pos, keywords, n'.keywords);
      }
    case Keyword(_, value) => if n'.Keyword? { NoDifferencesIff(value, n'.value); }
    case Attribute(value, _) => if n'.Attribute? { NoDifferencesIff(value, n'.target); }
    case ImportFrom(at, _, names) => if n'.ImportFrom? { NoAliasDifferencesIff(at, names, n'.names); }
    case Generic(_, children) => if n'.Generic? { NoDifferencesAllIff(children, n'.children); }
    case _ =>
  }

  lemma {:induction false} NoCalleeDifferencesIff(pos: nat, f: Node, f': Node)
    ensures CalleeDifferences(pos, f, f') == [] <==> f == f'
    decreases f, 2
  {
    NoDifferencesIff(f, f');
  }

  lemma {:induction false} NoDifferencesAllIff(ns: seq<Node>, ns': seq<Node>)
    ensures DifferencesAll(ns, ns') == [] <==> ns == ns'
    decreases ns, 0
  {
    if ns != [] && ns' != [] {
      NoDifferencesIff(ns[0], ns'[0]);
      NoDifferencesAllIff(ns[1..], ns'[1..]);
      assert ns == [ns[0]] + ns[1..] && ns' == [ns'[0]] + ns'[1..];
    }
  }

  lemma {:induction false} NoKeywordDifferencesIff(pos: nat, kws: seq<Node>, kws': seq<Node>)
    ensures KeywordDifferences(pos, kws, kws') == [] <==> kws == kws'
    decreases kws, 0
  {
    if kws != [] && kws' != [] {
      NoDifferencesIff(kws[0], kws'[0]);
      NoKeywordDifferencesIff(pos, kws[1..], kws'[1..]);
      assert kws == [kws[0]] + kws[1..] && kws' == [kws'[0]] + kws'[1..];
    }
  }

  lemma {:induction false} NoAliasDifferencesIff(at: nat, names: seq<Alias>, names': seq<Alias>)
    ensures AliasDifferences(at, names, names') == [] <==> names == names'
  {
    if names != [] && names' != [] {
      NoAliasDifferencesIff(at, names[1..], names'[1..]);
      assert names == [names[0]] + names[1..] && names' == [names'[0]] + names'[1..];
    }
  }

  // ----- The records are the differences -----

  /** The difference a record stands for. */
  function ChangeOf(e: Edit): Change {
    match e
    case CallReplaced(pos, before, after) => MethodRenamed(pos, "hashlib", before, after)
    case KeySizeRaised(pos, from) => ArgumentChanged(pos, Some("key_size"), from, IntConst(3072))
    case AlgorithmReplaced(pos, before) => MethodRenamed(pos, "algorithms", before, "AES")
    case ImportReplaced(pos, before, after) => ImportRenamed(pos, before, after)
  }

  function ChangesOf(es: seq<Edit>): (r: seq<Change>)
    ensures |r| == |es| && forall i | 0 <= i < |r| :: r[i] == ChangeOf(es[i])
  {
    seq(|es|, i requires 0 <= i < |es| => ChangeOf(es[i]))
  }

  lemma ChangesOfConcat(a: seq<Edit>, b: seq<Edit>)
    ensures ChangesOf(a + b) == ChangesOf(a) + ChangesOf(b)
  {
  }

  /**
   A pass changes exactly what it records, at the places it records, to the tokens it records, in
   that order, and nothing else whatsoever.
   */
  lemma {:induction false} PassChangesAsRecorded(n: Node, target: string)
    requires StrongHash(target)
    ensures Differences(n, Pass(n, target)) == ChangesOf(Edits(n, target))
    decreases n, 1
  {
    match n
    case Call(pos, func, args, keywords) =>
      if Matched(n) {
        MatchedChanges(n, target);
      } else {
        UnmatchedCall(n, target);
        CalleeChanges(n, target);
        PassAllChanges(args, target);
        UnmatchedKeywords(pos, keywords, target);
        ChangesOfConcat(Edits(func, target), EditsAll(args, target));
        ChangesOfConcat(Edits(func, target) + EditsAll(args, target), EditsAll(keywords, target));
      }
    case Keyword(_, value) => PassChangesAsRecorded(value, target);
    case Attribute(value, _) => PassChangesAsRecorded(value, target);
    case ImportFrom(at, m, names) =>
      if m == Some("hashlib") {
        AliasChanges(at, names, target);
      } else {
        NoAliasDifferencesIff(at, names, names);
      }
    case Generic(_, children) => PassAllChanges(children, target);
    case _ =>
  }

  /** The callee of an unmatched call; a method on a name stays as it is. */
  lemma {:induction false} CalleeChanges(n: Node, target: string)
    requires StrongHash(target) && n.Call? && !Matched(n)
    ensures CalleeDifferences(n.pos, n.func, Pass(n.func, target)) == ChangesOf(Edits(n.func, target))
    decreases n, 0
  {
    NamesStay(n.func, target);
    PassChangesAsRecorded(n.func, target);
    if IsMethodCall(n) {
      assert Pass(n.func, target) == n.func && Edits(n.func, target) == [];
    } else if n.func.Attribute? {
      NamesStay(n.func.target, target);
    }
  }

  lemma MatchedChanges(n: Node, target: string)
    requires StrongHash(target) && Matched(n)
    ensures Differences(n, Pass(n, target)) == ChangesOf(Edits(n, target))
  {
    NoDifferencesAllIff(n.args, n.args);
    if IsKeyGen(n) {
      KeySizeChanges(n.pos, n.keywords);
    } else {
      NoKeywordDifferencesIff(n.pos, n.keywords, n.keywords);
    }
  }

  lemma {:induction false} KeySizeChanges(pos: nat, kws: seq<Node>)
    ensures KeywordDifferences(pos, kws, StrengthenKeywords(kws)) == ChangesOf(KeywordEdits(pos, kws))
  {
    if kws != [] {
      KeySizeChanges(pos, kws[1..]);
      NoDifferencesIff(kws[0], kws[0]);
      assert StrengthenKeywords(kws)[1..] == StrengthenKeywords(kws[1..]);
      var first := if IsWeakKeySize(kws[0]) then [KeySizeRaised(pos, kws[0].value.literal)] else [];
      ChangesOfConcat(first, KeywordEdits(pos, kws[1..]));
    }
  }

  lemma {:induction false} AliasChanges(at: nat, names: seq<Alias>, target: string)
    requires StrongHash(target)
    ensures AliasDifferences(at, names, StrengthenAliases(names, target)) == ChangesOf(AliasEdits(at, names, target))
  {
    if names != [] {
      AliasChanges(at, names[1..], target);
      assert StrengthenAliases(names, target)[1..] == StrengthenAliases(names[1..], target);
      var first := if WeakImport(names[0].name) then [ImportReplaced(at, names[0].name, target)] else [];
      ChangesOfConcat(first, AliasEdits(at, names[1..], target));
    }
  }

  lemma {:induction false} PassAllChanges(ns: seq<Node>, target: string)
    requires StrongHash(target)
    ensures DifferencesAll(ns, PassAll(ns, target)) == ChangesOf(EditsAll(ns, target))
    decreases ns, 0
  {
    if ns != [] {
      PassChangesAsRecorded(ns[0], target);
      PassAllChanges(ns[1..], target);
      assert PassAll(ns, target)[1..] == PassAll(ns[1..], target);
      ChangesOfConcat(Edits(ns[0], target), EditsAll(ns[1..], target));
    }
  }

  /** The keyword arguments of an unmatched call: constants stay as they are. */
  lemma {:induction false} UnmatchedKeywords(pos: nat, kws: seq<Node>, target: string)
    requires StrongHash(target)
    ensures KeywordDifferences(pos, kws, PassAll(kws, target)) == ChangesOf(EditsAll(kws, target))
    decreases kws, 0
  {
    if kws != [] {
      PassChangesAsRecorded(kws[0], target);
      UnmatchedKeywords(pos, kws[1..], target);
      assert PassAll(kws, target)[1..] == PassAll(kws[1..], target);
      ChangesOfConcat(Edits(kws[0], target), EditsAll(kws[1..], target));
      ConstantsStay(kws[0], target);
    }
  }

  lemma ConstantsStay(n: Node, target: string)
    ensures Pass(n, target).Constant? ==> Pass(n, target) == n
    ensures Pass(n, target).Keyword? ==> n.Keyword? && Pass(n, target) == n.(value := Pass(n.value, target))
  {
  }

  // ----- What a pass does to each weak token -----

  /** The only changes there are: the listed tokens, each to its replacement. */
  predicate Intended(c: Change, target: string) {
    match c
    case MethodRenamed(_, owner, before, after) =>
      || (owner == "hashlib" && before in ["md5", "sha1", "sha224"] && after == target)
      || (owner == "algorithms" && before in ["TripleDES", "ARC4", "Blowfish"] && after == "AES")
    case ArgumentChanged(_, arg, before, after) =>
      arg == Some("key_size") && after == IntConst(3072) && (before.BoolConst? || (before.IntConst? && before.n < 2048))
    case ImportRenamed(_, before, after) => before in ["md5", "sha1"] && after == target
    case Elsewhere => false
  }

  /** Whatever differs after a pass is a weak token replaced by the requested strong one. */
  lemma PassChangesIntended(n: Node, target: string, c: Change)
    requires StrongHash(target) && c in Differences(n, Pass(n, target))
    ensures Intended(c, target)
  {
    PassChangesAsRecorded(n, target);
    EditsSound(n, target);
    var i :| 0 <= i < |Edits(n, target)| && ChangesOf(Edits(n, target))[i] == c;
    assert Edits(n, target)[i] in Edits(n, target);
  }

  /** A call of a weak hash or cipher by its literal name is rewritten where it stands, and its arguments are not. */
  lemma WeakCallRewritten(pos: nat, owner: string, name: string, args: seq<Node>, keywords: seq<Node>, target: string)
    requires
      || (owner == "hashlib" && name in ["md5", "sha1", "sha224"])
      || (owner == "algorithms" && name in ["TripleDES", "ARC4", "Blowfish"])
    ensures Pass(Call(pos, Attribute(Name(owner), name), args, keywords), target)
         == Call(pos, Attribute(Name(owner), if owner == "hashlib" then target else "AES"), args, keywords)
  {
  }

  /** In a key-generation call on any name, every constant key size below 2048 becomes 3072; nothing is entered. */
  lemma {:induction false} KeyGenerationRewritten(pos: nat, owner: string, args: seq<Node>, keywords: seq<Node>,
                                                  target: string, i: nat)
    requires i < |keywords|
    ensures
      var call := Call(pos, Attribute(Name(owner), "generate_private_key"), args, keywords);
      var call' := Pass(call, target);
      && call'.Call? && call' == call.(keywords := call'.keywords) && |call'.keywords| == |keywords|
      && call'.keywords[i] ==
           match keywords[i]
           case Keyword(Some("key_size"), Constant(IntConst(size))) =>
             Keyword(Some("key_size"), Constant(IntConst(if size < 2048 then 3072 else size)))
           case Keyword(Some("key_size"), Constant(BoolConst(_))) =>
             Keyword(Some("key_size"), Constant(IntConst(3072)))
           case other => other
  {
    StrengthenedAt(keywords, i);
  }

  lemma {:induction false} StrengthenedAt(kws: seq<Node>, i: nat)
    requires i < |kws|
    ensures StrengthenKeywords(kws)[i] == StrengthenKeyword(kws[i])
  {
    if i > 0 {
      StrengthenedAt(kws[1..], i - 1);
    }
  }

  /** Names imported from hashlib: `md5` and `sha1` become the target, wherever they stand in the list. */
  lemma {:induction false} ImportRewritten(at: nat, names: seq<Alias>, target: string, i: nat)
    requires i < |names|
    ensures
      var names' := Pass(ImportFrom(at, Some("hashlib"), names), target).names;
      |names'| == |names|
      && names'[i] == if names[i].name in ["md5", "sha1"] then Alias(target, names[i].asName) else names[i]
  {
    StrengthenedAlias(names, target, i);
  }

  lemma {:induction false} StrengthenedAlias(names: seq<Alias>, target: string, i: nat)
    requires i < |names|
    ensures |StrengthenAliases(names, target)| == |names|
    ensures StrengthenAliases(names, target)[i]
         == if names[i].name in ["md5", "sha1"] then Alias(target, names[i].asName) else names[i]
  {
    if |names| > 1 {
      StrengthenedAlias(names[1..], target, if i > 0 then i - 1 else 0);
    }
  }
}
