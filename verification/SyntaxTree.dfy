/**
 Syntax trees whose rewritable fields live on the heap: attribute names, constants and import
 aliases can be assigned in place, as the visitor of `patch_generator.py` does.
 */
module SyntaxTree {
  import opened Common
  import opened PatchModel

  /** A field of a syntax node that may be assigned. */
  class Field<T> {
    var content: T

    constructor (content: T)
      ensures this.content == content
    {
      this.content := content;
    }
  }

  datatype LiveAlias = LiveAlias(name: Field<string>, asName: Option<string>)

  datatype Tree =
    | CallTree(pos: nat, func: Tree, args: seq<Tree>, keywords: seq<Tree>)
    | KeywordTree(arg: Option<string>, value: Tree)
    | AttributeTree(target: Tree, attr: Field<string>)
    | NameTree(id: string)
    | ConstantTree(literal: Field<Const>)
    | ImportTree(at: nat, importedModule: Option<string>, names: seq<LiveAlias>)
    | GenericTree(kind: string, children: seq<Tree>)

  /** The fields of a tree: what a visit may change. */
  ghost function Fields(t: Tree): set<object> {
    match t
    case CallTree(_, func, args, keywords) => Fields(func) + FieldsAll(args) + FieldsAll(keywords)
    case KeywordTree(_, value) => Fields(value)
    case AttributeTree(target, attr) => Fields(target) + {attr}
    case NameTree(_) => {}
    case ConstantTree(literal) => {literal}
    case ImportTree(_, _, names) => AliasFields(names)
    case GenericTree(_, children) => FieldsAll(children)
  }

  ghost function FieldsAll(ts: seq<Tree>): set<object> {
    if ts == [] then {} else Fields(ts[0]) + FieldsAll(ts[1..])
  }

  ghost function AliasFields(names: seq<LiveAlias>): set<object> {
    set i | 0 <= i < |names| :: names[i].name
  }

  /** No field belongs to two places of the tree. */
  ghost predicate Proper(t: Tree) {
    match t
    case CallTree(_, func, args, keywords) =>
      && Proper(func) && ProperAll(args) && ProperAll(keywords)
      && Fields(func) !! FieldsAll(args) && Fields(func) !! FieldsAll(keywords)
      && FieldsAll(args) !! FieldsAll(keywords)
    case KeywordTree(_, value) => Proper(value)
    case AttributeTree(target, attr) => Proper(target) && attr !in Fields(target)
    case NameTree(_) => true
    case ConstantTree(_) => true
    case ImportTree(_, _, names) => ProperNames(names)
    case GenericTree(_, children) => ProperAll(children)
  }

  ghost predicate ProperAll(ts: seq<Tree>) {
    ts == [] || (Proper(ts[0]) && ProperAll(ts[1..]) && Fields(ts[0]) !! FieldsAll(ts[1..]))
  }

  ghost predicate ProperNames(names: seq<LiveAlias>) {
    forall i, j | 0 <= i < j < |names| :: names[i].name != names[j].name
  }

  /** The tree's present value. */
  function Read(t: Tree): (n: Node)
    reads Fields(t)
    ensures n.Call? <==> t.CallTree?
    ensures n.Attribute? <==> t.AttributeTree?
    ensures n.Name? <==> t.NameTree?
    ensures n.Keyword? <==> t.KeywordTree?
    ensures n.Constant? <==> t.ConstantTree?
  {
    match t
    case CallTree(pos, func, args, keywords) => Call(pos, Read(func), ReadAll(args), ReadAll(keywords))
    case KeywordTree(arg, value) => Keyword(arg, Read(value))
    case AttributeTree(target, attr) => Attribute(Read(target), attr.content)
    case NameTree(id) => Name(id)
    case ConstantTree(literal) => Constant(literal.content)
    case ImportTree(at, m, names) => ImportFrom(at, m, ReadNames(names))
    case GenericTree(kind, children) => Generic(kind, ReadAll(children))
  }

  function ReadAll(ts: seq<Tree>): (r: seq<Node>)
    reads FieldsAll(ts)
    ensures |r| == |ts|
  {
    if ts == [] then [] else [Read(ts[0])] + ReadAll(ts[1..])
  }

  function ReadAlias(a: LiveAlias): Alias
    reads a.name
  {
    Alias(a.name.content, a.asName)
  }

  function ReadNames(names: seq<LiveAlias>): (r: seq<Alias>)
    reads AliasFields(names)
    ensures |r| == |names| && forall i | 0 <= i < |names| :: r[i] == ReadAlias(names[i])
  {
    seq(|names|, i requires 0 <= i < |names| reads AliasFields(names) => ReadAlias(names[i]))
  }

  lemma AliasFieldsAppend(names: seq<LiveAlias>, a: LiveAlias)
    ensures AliasFields(names + [a]) == AliasFields(names) + {a.name}
  {
    var more := names + [a];
    forall f | f in AliasFields(names) + {a.name} ensures f in AliasFields(more) {
      if f in AliasFields(names) {
        var i :| 0 <= i < |names| && names[i].name == f;
        assert more[i] == names[i];
      } else {
        assert more[|names|] == a;
      }
    }
  }

  /** One node of a proper list shares no field with what stands around it. */
  lemma {:induction false} Around(ts: seq<Tree>, i: nat)
    requires i < |ts| && ProperAll(ts)
    ensures Fields(ts[i]) !! FieldsAll(ts[..i]) && Fields(ts[i]) !! FieldsAll(ts[i + 1..])
    ensures Fields(ts[i]) <= FieldsAll(ts)
    ensures FieldsAll(ts[..i]) <= FieldsAll(ts) && FieldsAll(ts[i + 1..]) <= FieldsAll(ts)
  {
    if i > 0 {
      var tail := ts[1..];
      Around(tail, i - 1);
      assert tail[i - 1] == ts[i] && tail[..i - 1] == ts[..i][1..] && tail[i..] == ts[i + 1..];
      assert FieldsAll(ts[..i]) == Fields(ts[0]) + FieldsAll(tail[..i - 1]);
    }
  }

  lemma {:induction false} ReadAround(ts: seq<Tree>, i: nat)
    requires i < |ts|
    ensures ReadAll(ts) == ReadAll(ts[..i]) + [Read(ts[i])] + ReadAll(ts[i + 1..])
  {
    if i > 0 {
      var tail := ts[1..];
      ReadAround(tail, i - 1);
      assert tail[i - 1] == ts[i] && tail[..i - 1] == ts[..i][1..] && tail[i..] == ts[i + 1..];
      assert ReadAll(ts[..i]) == [Read(ts[0])] + ReadAll(tail[..i - 1]);
    }
  }

  /** How a call reads. */
  lemma CalleeOf(t: Tree)
    requires t.CallTree?
    ensures Read(t) == Call(t.pos, Read(t.func), ReadAll(t.args), ReadAll(t.keywords))
    ensures IsMethodCall(Read(t)) <==> t.func.AttributeTree? && t.func.target.NameTree?
    ensures IsMethodCall(Read(t)) ==> Read(t).func == Attribute(Name(t.func.target.id), t.func.attr.content)
  {
  }

  /** A fresh tree with a given value, as parsing allocates it. */
  method Build(n: Node) returns (t: Tree)
    ensures Proper(t) && fresh(Fields(t)) && Read(t) == n
    decreases n, 1
  {
    match n
    case Call(pos, func, args, keywords) =>
      var f := Build(func);
      assert allocated(Fields(f));
      var a := BuildAll(args);
      assert allocated(FieldsAll(a));
      var k := BuildAll(keywords);
      t := CallTree(pos, f, a, k);
    case Keyword(arg, value) =>
      var v := Build(value);
      t := KeywordTree(arg, v);
    case Attribute(target, attr) =>
      var v := Build(target);
      assert allocated(Fields(v));
      var field := new Field(attr);
      t := AttributeTree(v, field);
    case Name(id) => t := NameTree(id);
    case Constant(literal) =>
      var field := new Field(literal);
      t := ConstantTree(field);
    case ImportFrom(at, m, names) =>
      var live := BuildNames(names);
      t := ImportTree(at, m, live);
    case Generic(kind, children) =>
      var c := BuildAll(children);
      t := GenericTree(kind, c);
  }

  method BuildNames(names: seq<Alias>) returns (live: seq<LiveAlias>)
    ensures ProperNames(live) && fresh(AliasFields(live)) && ReadNames(live) == names
  {
    live := [];
    for i := 0 to |names|
      invariant ProperNames(live) && fresh(AliasFields(live)) && ReadNames(live) == names[..i]
    {
      assert allocated(AliasFields(live));
      var field := new Field(names[i].name);
      assert forall j | 0 <= j < i :: live[j].name in AliasFields(live);
      AliasFieldsAppend(live, LiveAlias(field, names[i].asName));
      live := live + [LiveAlias(field, names[i].asName)];
      assert ReadNames(live) == names[..i] + [names[i]];
    }
    assert names[..|names|] == names;
  }

  method BuildAll(ns: seq<Node>) returns (ts: seq<Tree>)
    ensures ProperAll(ts) && fresh(FieldsAll(ts)) && ReadAll(ts) == ns
    decreases ns, 0
  {
    if ns == [] {
      return [];
    }
    var first := Build(ns[0]);
    assert allocated(Fields(first));
    var rest := BuildAll(ns[1..]);
    ts := [first] + rest;
    assert ts[1..] == rest;
  }
}
