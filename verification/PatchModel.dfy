/**
 The Python patch transformer (backend/scanners/patch_generator.py:34-147) at the level of syntax
 trees: what one pass rewrites and records, which weak sites it cannot reach, and how repeated
 passes converge.
 */
module PatchModel {
  import opened Common

  /** A constant's value; `True` and `False` count as the integers 1 and 0. */
  datatype Const = IntConst(n: int) | BoolConst(b: bool) | OtherConst(text: string)

  datatype Alias = Alias(name: string, asName: Option<string>)

  /** A syntax tree.  `pos` is the line and column; nodes without special treatment are `Generic`. */
  datatype Node =
    | Call(pos: nat, func: Node, args: seq<Node>, keywords: seq<Node>)
    | Keyword(arg: Option<string>, value: Node)
    | Attribute(target: Node, attr: string)
    | Name(id: string)
    | Constant(literal: Const)
    | ImportFrom(at: nat, importedModule: Option<string>, names: seq<Alias>)
    | Generic(kind: string, children: seq<Node>)

  datatype Edit =
    | CallReplaced(pos: nat, before: string, after: string)
    | KeySizeRaised(pos: nat, from: Const)
    | AlgorithmReplaced(pos: nat, before: string)
    | ImportReplaced(pos: nat, before: string, after: string)

  // ----- What counts as weak -----

  predicate WeakHash(name: string) { name == "md5" || name == "sha1" || name == "sha224" }

  predicate WeakCipher(name: string) { name == "TripleDES" || name == "ARC4" || name == "Blowfish" }

  predicate WeakImport(name: string) { name == "md5" || name == "sha1" }

  predicate WeakKeySize(c: Const) {
    match c
    case IntConst(n) => n < 2048
    case BoolConst(_) => true
    case OtherConst(_) => false
  }

  /** `target` is "sha256" or "sha384". */
  predicate StrongHash(target: string) { target == "sha256" || target == "sha384" }

  /** Calls written `name.method(...)`. */
  predicate IsMethodCall(n: Node) {
    n.Call? && n.func.Attribute? && n.func.target.Name?
  }

  predicate IsHashCall(n: Node) {
    IsMethodCall(n) && n.func.target.id == "hashlib" && WeakHash(n.func.attr)
  }

  predicate IsKeyGen(n: Node) {
    IsMethodCall(n) && n.func.attr == "generate_private_key"
  }

  predicate IsCipherCall(n: Node) {
    IsMethodCall(n) && n.func.target.id == "algorithms" && WeakCipher(n.func.attr)
  }

  predicate IsWeakKeySize(kw: Node) {
    kw.Keyword? && kw.arg == Some("key_size") && kw.value.Constant? && WeakKeySize(kw.value.literal)
  }

  // ----- One pass -----

  function StrengthenKeyword(kw: Node): Node {
    if IsWeakKeySize(kw) then kw.(value := Constant(IntConst(3072))) else kw
  }

  function StrengthenKeywords(kws: seq<Node>): (r: seq<Node>)
    ensures |r| == |kws|
  {
    if kws == [] then [] else [StrengthenKeyword(kws[0])] + StrengthenKeywords(kws[1..])
  }

  function StrengthenAliases(names: seq<Alias>, target: string): seq<Alias> {
    if names == [] then []
    else [if WeakImport(names[0].name) then names[0].(name := target) else names[0]]
         + StrengthenAliases(names[1..], target)
  }

  /** The tree after one pass: matched calls are rewritten and not entered. */
  function Pass(n: Node, target: string): Node {
    match n
    case Call(pos, func, args, keywords) =>
      if IsHashCall(n) then n.(func := func.(attr := target))
      else if IsKeyGen(n) then n.(keywords := StrengthenKeywords(keywords))
      else if IsCipherCall(n) then n.(func := func.(attr := "AES"))
      else Call(pos, Pass(func, target), PassAll(args, target), PassAll(keywords, target))
    case Keyword(arg, value) => Keyword(arg, Pass(value, target))
    case Attribute(value, attr) => Attribute(Pass(value, target), attr)
    case Name(_) => n
    case Constant(_) => n
    case ImportFrom(_, m, names) =>
      if m == Some("hashlib") then n.(names := StrengthenAliases(names, target)) else n
    case Generic(kind, children) => Generic(kind, PassAll(children, target))
  }

  function PassAll(ns: seq<Node>, target: string): (r: seq<Node>)
    ensures |r| == |ns|
  {
    if ns == [] then [] else [Pass(ns[0], target)] + PassAll(ns[1..], target)
  }

  function KeywordEdits(pos: nat, kws: seq<Node>): seq<Edit> {
    if kws == [] then []
    else (if IsWeakKeySize(kws[0]) then [KeySizeRaised(pos, kws[0].value.literal)] else [])
         + KeywordEdits(pos, kws[1..])
  }

  function AliasEdits(pos: nat, names: seq<Alias>, target: string): seq<Edit> {
    if names == [] then []
    else (if WeakImport(names[0].name) then [ImportReplaced(pos, names[0].name, target)] else [])
         + AliasEdits(pos, names[1..], target)
  }

  /** The transformations one pass records, in visiting order. */
  function Edits(n: Node, target: string): seq<Edit> {
    match n
    case Call(pos, func, args, keywords) =>
      if IsHashCall(n) then [CallReplaced(pos, func.attr, target)]
      else if IsKeyGen(n) then KeywordEdits(pos, keywords)
      else if IsCipherCall(n) then [AlgorithmReplaced(pos, func.attr)]
      else Edits(func, target) + EditsAll(args, target) + EditsAll(keywords, target)
    case Keyword(_, value) => Edits(value, target)
    case Attribute(value, _) => Edits(value, target)
    case Name(_) => []
    case Constant(_) => []
    case ImportFrom(at, m, names) => if m == Some("hashlib") then AliasEdits(at, names, target) else []
    case Generic(_, children) => EditsAll(children, target)
  }

  function EditsAll(ns: seq<Node>, target: string): seq<Edit> {
    if ns == [] then [] else Edits(ns[0], target) + EditsAll(ns[1..], target)
  }

  // ----- Counting weak sites -----

  function WeakKeywords(kws: seq<Node>): nat {
    if kws == [] then 0 else (if IsWeakKeySize(kws[0]) then 1 else 0) + WeakKeywords(kws[1..])
  }

  function WeakAliases(names: seq<Alias>): nat {
    if names == [] then 0 else (if WeakImport(names[0].name) then 1 else 0) + WeakAliases(names[1..])
  }

  /** Weak sites at this node itself. */
  function OwnWeak(n: Node): nat {
    if IsHashCall(n) || IsCipherCall(n) then 1
    else if IsKeyGen(n) then WeakKeywords(n.keywords)
    else if n.ImportFrom? && n.importedModule == Some("hashlib") then WeakAliases(n.names)
    else 0
  }

  /** All weak sites of a tree, wherever they are. */
  function Weak(n: Node): nat {
    OwnWeak(n) + match n
      case Call(_, func, args, keywords) => Weak(func) + WeakAll(args) + WeakAll(keywords)
      case Keyword(_, value) => Weak(value)
      case Attribute(value, _) => Weak(value)
      case Generic(_, children) => WeakAll(children)
      case _ => 0
  }

  function WeakAll(ns: seq<Node>): nat {
    if ns == [] then 0 else Weak(ns[0]) + WeakAll(ns[1..])
  }

  /** Weak sites inside what is passed to some `X.generate_private_key(...)`, which no pass ever enters. */
  function Sheltered(n: Node): nat {
    match n
    case Call(_, func, args, keywords) =>
      if IsKeyGen(n) then WeakAll(args) + WeakAll(keywords)
      else Sheltered(func) + ShelteredAll(args) + ShelteredAll(keywords)
    case Keyword(_, value) => Sheltered(value)
    case Attribute(value, _) => Sheltered(value)
    case Generic(_, children) => ShelteredAll(children)
    case _ => 0
  }

  function ShelteredAll(ns: seq<Node>): nat {
    if ns == [] then 0 else Sheltered(ns[0]) + ShelteredAll(ns[1..])
  }

  /** How deeply weak hash and cipher calls nest outside shelters: the number of passes needed. */
  function Depth(n: Node): nat {
    match n
    case Call(_, func, args, keywords) =>
      if IsKeyGen(n) then (if WeakKeywords(keywords) > 0 then 1 else 0)
      else
        var inner := Max(Depth(func), Max(DepthAll(args), DepthAll(keywords)));
        if IsHashCall(n) || IsCipherCall(n) then 1 + inner else inner
    case Keyword(_, value) => Depth(value)
    case Attribute(value, _) => Depth(value)
    case ImportFrom(_, m, names) => if m == Some("hashlib") && WeakAliases(names) > 0 then 1 else 0
    case Generic(_, children) => DepthAll(children)
    case _ => 0
  }

  function DepthAll(ns: seq<Node>): nat {
    if ns == [] then 0 else Max(Depth(ns[0]), DepthAll(ns[1..]))
  }

  function Max(a: nat, b: nat): nat { if a >= b then a else b }

  function Less(a: nat): nat { if a == 0 then 0 else a - 1 }

  // ----- One pass removes exactly the sites it records -----

  lemma {:induction false} KeywordsPass(pos: nat, kws: seq<Node>)
    ensures WeakKeywords(StrengthenKeywords(kws)) == 0 && WeakKeywords(kws) == |KeywordEdits(pos, kws)|
    ensures WeakAll(StrengthenKeywords(kws)) == WeakAll(kws)
    ensures KeywordEdits(pos, kws) == [] <==> StrengthenKeywords(kws) == kws
  {
    if kws != [] {
      KeywordsPass(pos, kws[1..]);
      assert kws == [kws[0]] + kws[1..];
      var strong := StrengthenKeywords(kws);
      assert strong[1..] == StrengthenKeywords(kws[1..]) && strong[0] == StrengthenKeyword(kws[0]);
      if strong == kws {
        assert strong[0] == kws[0] && strong[1..] == kws[1..];
      }
    }
  }

  lemma {:induction false} AliasesPass(at: nat, names: seq<Alias>, target: string)
    requires StrongHash(target)
    ensures WeakAliases(StrengthenAliases(names, target)) == 0
    ensures WeakAliases(names) == |AliasEdits(at, names, target)|
    ensures AliasEdits(at, names, target) == [] <==> StrengthenAliases(names, target) == names
  {
    if names != [] {
      AliasesPass(at, names[1..], target);
      assert names == [names[0]] + names[1..];
      var strong := StrengthenAliases(names, target);
      assert strong[1..] == StrengthenAliases(names[1..], target);
      if strong == names {
        assert strong[0] == names[0] && strong[1..] == names[1..];
      }
    }
  }

  /**
   A pass lowers the number of weak sites by exactly the number of transformations it records,
   leaves the sheltered ones alone, and changes the tree if and only if it records something.
   */
  lemma {:induction false} PassCounts(n: Node, target: string)
    requires StrongHash(target)
    ensures Weak(Pass(n, target)) + |Edits(n, target)| == Weak(n)
    ensures Sheltered(Pass(n, target)) == Sheltered(n)
    ensures Edits(n, target) == [] <==> Pass(n, target) == n
    decreases n, 1
  {
    match n
    case Call(pos, func, args, keywords) =>
      if Matched(n) {
        MatchedCounts(n, target);
      } else {
        PassCounts(func, target);
        PassAllCounts(args, target);
        PassAllCounts(keywords, target);
        UnmatchedCall(n, target);
      }
    case Keyword(_, value) => PassCounts(value, target);
    case Attribute(value, _) => PassCounts(value, target);
    case ImportFrom(at, m, names) => AliasesPass(at, names, target);
    case Generic(_, children) => PassAllCounts(children, target);
    case _ =>
  }

  predicate Matched(n: Node) {
    IsHashCall(n) || IsKeyGen(n) || IsCipherCall(n)
  }

  /** A call that the visitor does not match is rebuilt from its visited parts and still matches nothing. */
  lemma UnmatchedCall(n: Node, target: string)
    requires n.Call? && !Matched(n)
    ensures Pass(n, target)
         == Call(n.pos, Pass(n.func, target), PassAll(n.args, target), PassAll(n.keywords, target))
    ensures !Matched(Pass(n, target))
    ensures OwnWeak(n) == 0 && OwnWeak(Pass(n, target)) == 0
  {
    var func, func' := n.func, Pass(n.func, target);
    NamesStay(func, target);
    if func'.Attribute? && func'.target.Name? {
      NamesStay(func.target, target);
      assert func' == func;
    }
  }

  lemma NamesStay(n: Node, target: string)
    ensures Pass(n, target).Name? ==> Pass(n, target) == n
    ensures Pass(n, target).Attribute? ==> n.Attribute? && Pass(n, target) == n.(target := Pass(n.target, target))
  {
  }

  lemma MatchedCounts(n: Node, target: string)
    requires StrongHash(target) && Matched(n)
    ensures Weak(Pass(n, target)) + |Edits(n, target)| == Weak(n)
    ensures Sheltered(Pass(n, target)) == Sheltered(n)
    ensures Edits(n, target) == [] <==> Pass(n, target) == n
  {
    var n' := Pass(n, target);
    assert Weak(n.func) == 0 && Weak(n'.func) == 0 && Sheltered(n.func) == 0 && Sheltered(n'.func) == 0;
    if IsKeyGen(n) {
      KeywordsPass(n.pos, n.keywords);
      assert IsKeyGen(n') && !IsHashCall(n') && !IsCipherCall(n');
    } else {
      assert !Matched(n') && n'.args == n.args && n'.keywords == n.keywords;
    }
  }

  lemma {:induction false} PassAllCounts(ns: seq<Node>, target: string)
    requires StrongHash(target)
    ensures WeakAll(PassAll(ns, target)) + |EditsAll(ns, target)| == WeakAll(ns)
    ensures ShelteredAll(PassAll(ns, target)) == ShelteredAll(ns)
    ensures EditsAll(ns, target) == [] <==> PassAll(ns, target) == ns
    decreases ns, 0
  {
    if ns != [] {
      PassCounts(ns[0], target);
      PassAllCounts(ns[1..], target);
      assert ns == [ns[0]] + ns[1..];
      var after := PassAll(ns, target);
      assert after[0] == Pass(ns[0], target) && after[1..] == PassAll(ns[1..], target);
      if after == ns {
        assert after[0] == ns[0] && after[1..] == ns[1..];
      }
    }
  }

  // ----- Repeated passes -----

  /** Every pass peels exactly one layer of nested weak calls. */
  lemma {:induction false} PassPeelsLayer(n: Node, target: string)
    requires StrongHash(target)
    ensures Depth(Pass(n, target)) == Less(Depth(n))
    decreases n, 1
  {
    match n
    case Call(pos, func, args, keywords) =>
      if Matched(n) {
        var n' := Pass(n, target);
        assert Depth(n.func) == 0 && Depth(n'.func) == 0;
        if IsKeyGen(n) {
          KeywordsPass(pos, keywords);
          assert IsKeyGen(n');
        } else {
          assert !Matched(n') && n'.args == args && n'.keywords == keywords;
        }
      } else {
        UnmatchedCall(n, target);
        PassPeelsLayer(func, target);
        PassAllPeelsLayer(args, target);
        PassAllPeelsLayer(keywords, target);
      }
    case Keyword(_, value) => PassPeelsLayer(value, target);
    case Attribute(value, _) => PassPeelsLayer(value, target);
    case ImportFrom(at, m, names) => AliasesPass(at, names, target);
    case Generic(_, children) => PassAllPeelsLayer(children, target);
    case _ =>
  }

  lemma {:induction false} PassAllPeelsLayer(ns: seq<Node>, target: string)
    requires StrongHash(target)
    ensures DepthAll(PassAll(ns, target)) == Less(DepthAll(ns))
    decreases ns, 0
  {
    if ns != [] {
      PassPeelsLayer(ns[0], target);
      PassAllPeelsLayer(ns[1..], target);
      var after := PassAll(ns, target);
      assert after[0] == Pass(ns[0], target) && after[1..] == PassAll(ns[1..], target);
    }
  }

  /** No layers are left exactly when every remaining weak site is sheltered. */
  lemma {:induction false} NoLayersMeansSheltered(n: Node)
    ensures Sheltered(n) <= Weak(n)
    ensures Depth(n) == 0 <==> Weak(n) == Sheltered(n)
    decreases n, 1
  {
    match n
    case Call(_, func, args, keywords) =>
      NoLayersMeansSheltered(func);
      NoLayersMeansShelteredAll(args);
      NoLayersMeansShelteredAll(keywords);
      if Matched(n) {
        assert Weak(func) == 0 && Sheltered(func) == 0;
      }
    case Keyword(_, value) => NoLayersMeansSheltered(value);
    case Attribute(value, _) => NoLayersMeansSheltered(value);
    case Generic(_, children) => NoLayersMeansShelteredAll(children);
    case _ =>
  }

  lemma {:induction false} NoLayersMeansShelteredAll(ns: seq<Node>)
    ensures ShelteredAll(ns) <= WeakAll(ns)
    ensures DepthAll(ns) == 0 <==> WeakAll(ns) == ShelteredAll(ns)
    decreases ns, 0
  {
    if ns != [] {
      NoLayersMeansSheltered(ns[0]);
      NoLayersMeansShelteredAll(ns[1..]);
    }
  }

  function Passes(n: Node, target: string, k: nat): Node {
    if k == 0 then n else Pass(Passes(n, target, k - 1), target)
  }

  lemma {:induction false} LayersAfterPasses(n: Node, target: string, k: nat)
    requires StrongHash(target)
    ensures Depth(Passes(n, target, k)) == if k < Depth(n) then Depth(n) - k else 0
    ensures Sheltered(Passes(n, target, k)) == Sheltered(n)
  {
    if k > 0 {
      LayersAfterPasses(n, target, k - 1);
      PassPeelsLayer(Passes(n, target, k - 1), target);
      PassCounts(Passes(n, target, k - 1), target);
    }
  }

  /**
   Repeated passes converge: after `k` passes another one changes nothing exactly when `k` has
   reached the nesting depth of the weak calls, and then the weak sites left are exactly those
   the original tree had inside arguments of `generate_private_key` calls.
   */
  lemma PassesConverge(n: Node, target: string, k: nat)
    requires StrongHash(target)
    ensures
      var reached := Passes(n, target, k);
      && (Pass(reached, target) == reached <==> k >= Depth(n))
      && (Weak(reached) == Sheltered(n) <==> k >= Depth(n))
  {
    var reached := Passes(n, target, k);
    LayersAfterPasses(n, target, k);
    PassCounts(reached, target);
    PassPeelsLayer(reached, target);
    NoLayersMeansSheltered(reached);
    if Pass(reached, target) != reached {
      NoLayersMeansSheltered(Pass(reached, target));
    }
  }

  /** One pass suffices exactly when no weak call is nested in another outside shelters. */
  lemma OnePassIdempotentIff(n: Node, target: string)
    requires StrongHash(target)
    ensures Pass(Pass(n, target), target) == Pass(n, target) <==> Depth(n) <= 1
  {
    PassesConverge(n, target, 1);
    assert Passes(n, target, 1) == Pass(Passes(n, target, 0), target);
  }

  // ----- Nothing else changes -----

  /** The method name with the targeted tokens blanked out. */
  function EraseMethod(owner: string, name: string): string {
    if owner == "hashlib" && (WeakHash(name) || StrongHash(name)) then "?"
    else if owner == "algorithms" && (WeakCipher(name) || name == "AES") then "?"
    else name
  }

  predicate TargetedKeySize(kw: Node) {
    IsWeakKeySize(kw) || kw == Keyword(Some("key_size"), Constant(IntConst(3072)))
  }

  function EraseAliases(names: seq<Alias>): seq<Alias> {
    if names == [] then []
    else [if WeakImport(names[0].name) || StrongHash(names[0].name) then names[0].(name := "?") else names[0]]
         + EraseAliases(names[1..])
  }

  /** Blanks out hash and cipher method names, small or raised RSA key sizes, and hashlib imports. */
  function Erase(n: Node): Node {
    match n
    case Call(pos, func, args, keywords) =>
      Call(pos,
           if IsMethodCall(n) then func.(attr := EraseMethod(func.target.id, func.attr)) else Erase(func),
           EraseAll(args),
           if IsKeyGen(n) then EraseKeySizes(keywords) else EraseAll(keywords))
    case Keyword(arg, value) => Keyword(arg, Erase(value))
    case Attribute(value, attr) => Attribute(Erase(value), attr)
    case ImportFrom(_, m, names) => if m == Some("hashlib") then n.(names := EraseAliases(names)) else n
    case Generic(kind, children) => Generic(kind, EraseAll(children))
    case _ => n
  }

  function EraseAll(ns: seq<Node>): seq<Node> {
    if ns == [] then [] else [Erase(ns[0])] + EraseAll(ns[1..])
  }

  function EraseKeySizes(kws: seq<Node>): seq<Node> {
    if kws == [] then []
    else [if TargetedKeySize(kws[0]) then Keyword(Some("key_size"), Constant(OtherConst("?"))) else Erase(kws[0])]
         + EraseKeySizes(kws[1..])
  }

  lemma {:induction false} KeySizesErased(kws: seq<Node>)
    ensures EraseKeySizes(StrengthenKeywords(kws)) == EraseKeySizes(kws)
  {
    if kws != [] {
      KeySizesErased(kws[1..]);
      assert StrengthenKeywords(kws)[1..] == StrengthenKeywords(kws[1..]);
    }
  }

  lemma {:induction false} AliasesErased(names: seq<Alias>, target: string)
    requires StrongHash(target)
    ensures EraseAliases(StrengthenAliases(names, target)) == EraseAliases(names)
  {
    if names != [] {
      AliasesErased(names[1..], target);
      assert StrengthenAliases(names, target)[1..] == StrengthenAliases(names[1..], target);
    }
  }

  /** A pass changes nothing but the targeted tokens. */
  lemma {:induction false} PassPreservesRest(n: Node, target: string)
    requires StrongHash(target)
    ensures Erase(Pass(n, target)) == Erase(n)
    decreases n, 1
  {
    match n
    case Call(_, func, args, keywords) =>
      if Matched(n) {
        KeySizesErased(keywords);
      } else {
        var n' := Pass(n, target);
        UnmatchedCall(n, target);
        NamesStay(func, target);
        PassPreservesRest(func, target);
        PassAllPreservesRest(args, target);
        PassAllPreservesRest(keywords, target);
        if IsMethodCall(n) {
          assert n'.func == func;
        } else {
          assert !IsMethodCall(n') by {
            if n'.func.Attribute? {
              NamesStay(func.target, target);
            }
          }
        }
      }
    case Keyword(_, value) => PassPreservesRest(value, target);
    case Attribute(value, _) => PassPreservesRest(value, target);
    case ImportFrom(_, _, names) => AliasesErased(names, target);
    case Generic(_, children) => PassAllPreservesRest(children, target);
    case _ =>
  }

  lemma {:induction false} PassAllPreservesRest(ns: seq<Node>, target: string)
    requires StrongHash(target)
    ensures EraseAll(PassAll(ns, target)) == EraseAll(ns)
    decreases ns, 0
  {
    if ns != [] {
      PassPreservesRest(ns[0], target);
      PassAllPreservesRest(ns[1..], target);
      assert PassAll(ns, target)[1..] == PassAll(ns[1..], target);
    }
  }

  // ----- What the records say -----

  /** A record names a weak token and the strong one that replaced it. */
  predicate SoundEdit(e: Edit, target: string) {
    match e
    case CallReplaced(_, before, after) => WeakHash(before) && after == target
    case KeySizeRaised(_, from) => WeakKeySize(from)
    case AlgorithmReplaced(_, before) => WeakCipher(before)
    case ImportReplaced(_, before, after) => WeakImport(before) && after == target
  }

  lemma {:induction false} EditsSound(n: Node, target: string)
    ensures forall e | e in Edits(n, target) :: SoundEdit(e, target)
    decreases n, 1
  {
    match n
    case Call(pos, func, args, keywords) =>
      if IsKeyGen(n) {
        KeywordEditsSound(pos, keywords, target);
      } else if !Matched(n) {
        EditsSound(func, target);
        EditsAllSound(args, target);
        EditsAllSound(keywords, target);
      }
    case Keyword(_, value) => EditsSound(value, target);
    case Attribute(value, _) => EditsSound(value, target);
    case ImportFrom(at, _, names) => AliasEditsSound(at, names, target);
    case Generic(_, children) => EditsAllSound(children, target);
    case _ =>
  }

  lemma {:induction false} EditsAllSound(ns: seq<Node>, target: string)
    ensures forall e | e in EditsAll(ns, target) :: SoundEdit(e, target)
    decreases ns, 0
  {
    if ns != [] {
      EditsSound(ns[0], target);
      EditsAllSound(ns[1..], target);
    }
  }

  lemma {:induction false} KeywordEditsSound(pos: nat, kws: seq<Node>, target: string)
    ensures forall e | e in KeywordEdits(pos, kws) :: SoundEdit(e, target)
  {
    if kws != [] {
      KeywordEditsSound(pos, kws[1..], target);
    }
  }

  lemma {:induction false} AliasEditsSound(at: nat, names: seq<Alias>, target: string)
    ensures forall e | e in AliasEdits(at, names, target) :: SoundEdit(e, target)
  {
    if names != [] {
      AliasEditsSound(at, names[1..], target);
    }
  }
}
