/** The visitor as it runs: it assigns the fields of the tree it walks and accumulates its record. */
module PatchTransformer {
  import opened Common
  import opened PatchModel
  import opened SyntaxTree
  import opened PatchChanges

  lemma {:induction false} KeywordsAppend(pos: nat, kws: seq<Node>, kw: Node)
    ensures StrengthenKeywords(kws + [kw]) == StrengthenKeywords(kws) + [StrengthenKeyword(kw)]
    ensures KeywordEdits(pos, kws + [kw]) == KeywordEdits(pos, kws) + KeywordEdits(pos, [kw])
  {
    if kws == [] {
      assert kws + [kw] == [kw] && [kw][1..] == [];
    } else {
      assert (kws + [kw])[1..] == kws[1..] + [kw];
      KeywordsAppend(pos, kws[1..], kw);
    }
  }

  /** The keywords once the first `i` have been strengthened. */
  ghost function PartlyStrengthened(kws: seq<Node>, i: nat): (r: seq<Node>)
    requires i <= |kws|
    ensures |r| == |kws|
  {
    StrengthenKeywords(kws[..i]) + kws[i..]
  }

  lemma KeywordsAdvance(pos: nat, kws: seq<Node>, i: nat)
    requires i < |kws|
    ensures PartlyStrengthened(kws, i)[i] == kws[i]
    ensures PartlyStrengthened(kws, i)[i := StrengthenKeyword(kws[i])] == PartlyStrengthened(kws, i + 1)
    ensures KeywordEdits(pos, kws[..i + 1]) == KeywordEdits(pos, kws[..i]) + KeywordEdits(pos, [kws[i]])
  {
    var done, x := StrengthenKeywords(kws[..i]), StrengthenKeyword(kws[i]);
    KeywordsAppend(pos, kws[..i], kws[i]);
    OneMore(kws, done, i, x);
  }

  lemma KeywordsDone(kws: seq<Node>)
    ensures PartlyStrengthened(kws, 0) == kws && PartlyStrengthened(kws, |kws|) == StrengthenKeywords(kws)
  {
    assert kws[..|kws|] == kws && kws[..0] == [] && [] + kws[0..] == kws;
  }

  lemma {:induction false} AliasesAppend(at: nat, names: seq<Alias>, a: Alias, target: string)
    ensures StrengthenAliases(names + [a], target) == StrengthenAliases(names, target) + StrengthenAliases([a], target)
    ensures AliasEdits(at, names + [a], target) == AliasEdits(at, names, target) + AliasEdits(at, [a], target)
  {
    if names == [] {
      assert names + [a] == [a] && [a][1..] == [];
    } else {
      assert (names + [a])[1..] == names[1..] + [a];
      AliasesAppend(at, names[1..], a, target);
    }
  }

  lemma UnmatchedEdits(n: Node, target: string)
    requires n.Call? && !Matched(n)
    ensures Edits(n, target) == Edits(n.func, target) + EditsAll(n.args, target) + EditsAll(n.keywords, target)
  {
  }

  /** A list whose first `i` elements have been replaced, and then one more. */
  lemma OneMore<T>(xs: seq<T>, done: seq<T>, i: nat, x: T)
    requires i < |xs| && |done| == i
    ensures xs[..i] + [xs[i]] == xs[..i + 1]
    ensures (done + xs[i..])[i := x] == done + [x] + xs[i + 1..] && (done + xs[i..])[i] == xs[i]
  {
  }

  lemma Replaced<T>(first: seq<T>, x: T, last: seq<T>, y: T)
    ensures (first + [x] + last)[|first|] == x
    ensures (first + [x] + last)[|first| := y] == first + [y] + last
  {
  }

  lemma Regroup(record: seq<Edit>, a: seq<Edit>, b: seq<Edit>, c: seq<Edit>)
    ensures record + a + b + c == record + (a + b + c)
  {
  }

  class PythonCryptoTransformer {
    const target: string
    var transformationsApplied: seq<Edit>

    constructor (targetAlgorithm: string)
      ensures transformationsApplied == []
      ensures target == if Contains(targetAlgorithm, "256") then "sha256" else "sha384"
    {
      target := if Contains(targetAlgorithm, "256") then "sha256" else "sha384";
      transformationsApplied := [];
    }

    /** Visits any node: the tree is rewritten in place, and nothing outside it changes but the record. */
    method Visit(t: Tree)
      requires Proper(t) && this !in Fields(t)
      modifies this`transformationsApplied, Fields(t)
      ensures Read(t) == Pass(old(Read(t)), target)
      ensures transformationsApplied == old(transformationsApplied) + Edits(old(Read(t)), target)
      decreases t, 2
    {
      match t
      case CallTree(_, _, _, _) => VisitCall(t);
      case ImportTree(_, _, _) => VisitImportFrom(t);
      case KeywordTree(_, value) => Visit(value);
      case AttributeTree(value, _) => Visit(value);
      case GenericTree(_, children) => VisitAll(children);
      case NameTree(_) =>
      case ConstantTree(_) =>
    }

    /** The nodes of a list field, one after the other. */
    method VisitAll(ts: seq<Tree>)
      requires ProperAll(ts) && this !in FieldsAll(ts)
      modifies this`transformationsApplied, FieldsAll(ts)
      ensures ReadAll(ts) == PassAll(old(ReadAll(ts)), target)
      ensures transformationsApplied == old(transformationsApplied) + EditsAll(old(ReadAll(ts)), target)
      decreases ts, 0
    {
      if ts != [] {
        ghost var first, rest, record := Read(ts[0]), ReadAll(ts[1..]), transformationsApplied;
        assert allocated(Fields(ts[0])) && allocated(FieldsAll(ts[1..]));
        Visit(ts[0]);
        assert ReadAll(ts[1..]) == rest;
        VisitAll(ts[1..]);
        assert Read(ts[0]) == Pass(first, target);
        assert transformationsApplied == record + (Edits(first, target) + EditsAll(rest, target));
      }
    }

    method VisitCall(t: Tree)
      requires t.CallTree? && Proper(t) && this !in Fields(t)
      modifies this`transformationsApplied, Fields(t)
      ensures Read(t) == Pass(old(Read(t)), target)
      ensures transformationsApplied == old(transformationsApplied) + Edits(old(Read(t)), target)
      decreases t, 1
    {
      CalleeOf(t);
      if t.func.AttributeTree? && t.func.target.NameTree? {
        var moduleName, methodName := t.func.target.id, t.func.attr.content;
        if moduleName == "hashlib" && WeakHash(methodName) {
          RenameCallee(t, target);
          transformationsApplied := transformationsApplied + [CallReplaced(t.pos, methodName, target)];
          return;
        }
        if methodName == "generate_private_key" {
          RaiseKeySizesOf(t);
          return;
        }
        if moduleName == "algorithms" && WeakCipher(methodName) {
          RenameCallee(t, "AES");
          transformationsApplied := transformationsApplied + [AlgorithmReplaced(t.pos, methodName)];
          return;
        }
      }
      VisitParts(t);
    }

    /** `node.func.attr = name` on a call of a module's method. */
    method RenameCallee(t: Tree, name: string)
      requires t.CallTree? && t.func.AttributeTree? && Proper(t) && IsMethodCall(Read(t))
      modifies t.func.attr
      ensures Read(t) == old(Read(t)).(func := old(Read(t)).func.(attr := name))
    {
      assert t.func.attr in Fields(t.func) && allocated(Fields(t));
      t.func.attr.content := name;
    }

    method RaiseKeySizesOf(t: Tree)
      requires t.CallTree? && Proper(t) && this !in Fields(t) && IsKeyGen(Read(t))
      modifies this`transformationsApplied, Fields(t)
      ensures Read(t) == old(Read(t)).(keywords := StrengthenKeywords(old(Read(t)).keywords))
      ensures transformationsApplied == old(transformationsApplied) + KeywordEdits(t.pos, old(Read(t)).keywords)
    {
      assert allocated(Fields(t));
      RaiseKeySizes(t.pos, t.keywords);
    }

    /** The generic visit of a call nothing matches. */
    method VisitParts(t: Tree)
      requires t.CallTree? && Proper(t) && this !in Fields(t) && !Matched(Read(t))
      modifies this`transformationsApplied, Fields(t)
      ensures Read(t) == Pass(old(Read(t)), target)
      ensures transformationsApplied == old(transformationsApplied) + Edits(old(Read(t)), target)
      decreases t, 0
    {
      ghost var n := Read(t);
      assert allocated(Fields(t));
      Visit(t.func);
      assert ReadAll(t.args) == n.args && ReadAll(t.keywords) == n.keywords;
      VisitAll(t.args);
      assert ReadAll(t.keywords) == n.keywords && Read(t.func) == Pass(n.func, target);
      VisitAll(t.keywords);
      UnmatchedCall(n, target);
      UnmatchedEdits(n, target);
      Regroup(old(transformationsApplied), Edits(n.func, target), EditsAll(n.args, target),
              EditsAll(n.keywords, target));
    }

    /** The keyword loop of a key-generation call. */
    method RaiseKeySizes(pos: nat, keywords: seq<Tree>)
      requires ProperAll(keywords) && this !in FieldsAll(keywords)
      modifies this`transformationsApplied, FieldsAll(keywords)
      ensures ReadAll(keywords) == StrengthenKeywords(old(ReadAll(keywords)))
      ensures transformationsApplied == old(transformationsApplied) + KeywordEdits(pos, old(ReadAll(keywords)))
    {
      ghost var nodes, record := ReadAll(keywords), transformationsApplied;
      KeywordsDone(nodes);
      for i := 0 to |keywords|
        invariant ReadAll(keywords) == PartlyStrengthened(nodes, i)
        invariant transformationsApplied == record + KeywordEdits(pos, nodes[..i])
      {
        KeywordsAdvance(pos, nodes, i);
        RaiseKeySizeAt(pos, keywords, i);
      }
      assert nodes[..|keywords|] == nodes;
    }

    /** One round of that loop: the other keywords share no field with this one. */
    method RaiseKeySizeAt(pos: nat, keywords: seq<Tree>, i: nat)
      requires i < |keywords| && ProperAll(keywords) && this !in FieldsAll(keywords)
      modifies this`transformationsApplied, FieldsAll(keywords)
      ensures ReadAll(keywords) == old(ReadAll(keywords))[i := StrengthenKeyword(old(ReadAll(keywords))[i])]
      ensures transformationsApplied == old(transformationsApplied) + KeywordEdits(pos, [old(ReadAll(keywords))[i]])
    {
      var before, kw, after := keywords[..i], keywords[i], keywords[i + 1..];
      ghost var first, n, last := ReadAll(before), Read(kw), ReadAll(after);
      Around(keywords, i);
      ReadAround(keywords, i);
      Replaced(first, n, last, StrengthenKeyword(n));
      assert allocated(FieldsAll(before)) && allocated(FieldsAll(after));
      RaiseKeySize(pos, kw);
      ReadAround(keywords, i);
    }

    /** The body of that loop. */
    method RaiseKeySize(pos: nat, kw: Tree)
      requires this !in Fields(kw)
      modifies this`transformationsApplied, Fields(kw)
      ensures Read(kw) == StrengthenKeyword(old(Read(kw)))
      ensures transformationsApplied == old(transformationsApplied) + KeywordEdits(pos, [old(Read(kw))])
    {
      ghost var n := Read(kw);
      assert KeywordEdits(pos, [n][1..]) == [];
      if kw.KeywordTree? && kw.arg == Some("key_size") && kw.value.ConstantTree? {
        var literal := kw.value.literal;
        if WeakKeySize(literal.content) {
          var was := literal.content;
          literal.content := IntConst(3072);
          transformationsApplied := transformationsApplied + [KeySizeRaised(pos, was)];
        }
      }
    }

    method VisitImportFrom(t: Tree)
      requires t.ImportTree? && Proper(t) && this !in Fields(t)
      modifies this`transformationsApplied, Fields(t)
      ensures Read(t) == Pass(old(Read(t)), target)
      ensures transformationsApplied == old(transformationsApplied) + Edits(old(Read(t)), target)
    {
      if t.importedModule == Some("hashlib") {
        RenameImports(t.at, t.names);
      }
    }

    /** The loop over the names of a hashlib import. */
    method RenameImports(at: nat, names: seq<LiveAlias>)
      requires ProperNames(names) && this !in AliasFields(names)
      modifies this`transformationsApplied, AliasFields(names)
      ensures ReadNames(names) == StrengthenAliases(old(ReadNames(names)), target)
      ensures transformationsApplied == old(transformationsApplied) + AliasEdits(at, old(ReadNames(names)), target)
    {
      ghost var were := ReadNames(names);
      ghost var done: seq<Alias> := [];
      for i := 0 to |names|
        invariant done == StrengthenAliases(were[..i], target) && |done| == i
        invariant forall j | 0 <= j < |names| :: ReadAlias(names[j]) == if j < i then done[j] else were[j]
        invariant transformationsApplied == old(transformationsApplied) + AliasEdits(at, were[..i], target)
      {
        AliasesAppend(at, were[..i], were[i], target);
        assert were[..i + 1] == were[..i] + [were[i]];
        assert names[i].name in AliasFields(names);
        RenameImport(at, names[i]);
        done := done + StrengthenAliases([were[i]], target);
      }
      assert were[..|names|] == were && ReadNames(names) == done;
    }

    method RenameImport(at: nat, a: LiveAlias)
      requires a.name as object != this
      modifies this`transformationsApplied, a.name
      ensures [ReadAlias(a)] == StrengthenAliases([old(ReadAlias(a))], target)
      ensures transformationsApplied == old(transformationsApplied) + AliasEdits(at, [old(ReadAlias(a))], target)
    {
      ghost var was := ReadAlias(a);
      assert [was][1..] == [];
      if WeakImport(a.name.content) {
        transformationsApplied := transformationsApplied + [ImportReplaced(at, a.name.content, target)];
        a.name.content := target;
      }
    }
  }

  /**
   `transform_python_code_ast` from parsed source to the tree to print: the input itself and no
   records when nothing matched, otherwise the rewritten tree and the records.
   */
  method TransformTree(source: Node, targetAlgorithm: string) returns (r: Node, edits: seq<Edit>)
    ensures
      var target := if Contains(targetAlgorithm, "256") then "sha256" else "sha384";
      && r == Pass(source, target) && edits == Edits(source, target)
      && (edits == [] <==> r == source)
      && Weak(r) + |edits| == Weak(source)
      && Differences(source, r) == ChangesOf(edits) && forall c | c in ChangesOf(edits) :: Intended(c, target)
  {
    var tree := Build(source);
    assert allocated(Fields(tree));
    var transformer := new PythonCryptoTransformer(targetAlgorithm);
    transformer.Visit(tree);
    PassCounts(source, transformer.target);
    PassChangesAsRecorded(source, transformer.target);
    forall c | c in ChangesOf(Edits(source, transformer.target)) ensures Intended(c, transformer.target) {
      PassChangesIntended(source, transformer.target, c);
    }
    if transformer.transformationsApplied == [] {
      return source, [];
    }
    return Read(tree), transformer.transformationsApplied;
  }
}
