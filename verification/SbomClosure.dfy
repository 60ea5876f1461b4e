/**
 The dependency worklist of the SBOM generator and the references it emits
 (scripts/generate_sbom.py:68-137, 258-327).
 */
module SbomClosure {
  import opened Common
  import opened Sorting
  import Purl

  /** One line of a distribution's requirements: the bare package name, and whether a marker limits it to an extra. */
  datatype Requirement = Requirement(base: string, forExtra: bool)

  datatype Distribution = Distribution(version: string, requirements: seq<Requirement>)

  /** The installed distributions, by normalized name. */
  type Registry = map<string, Distribution>

  datatype Component = Component(name: string, version: string, isDirect: bool, purl: string)

  function NormChar(c: char): char {
    if c == '_' then '-' else LowerChar(c)
  }

  /** `name.lower().replace("_", "-")`. */
  function Norm(name: string): (r: string)
    ensures |r| == |name| && forall i | 0 <= i < |r| :: r[i] == NormChar(name[i])
  {
    seq(|name|, i requires 0 <= i < |name| => NormChar(name[i]))
  }

  /** Normalized names are the same exactly when they agree but for case and for hyphens and underscores. */
  lemma NormIff(a: string, b: string)
    ensures Norm(a) == Norm(b) <==>
            |a| == |b| && forall i | 0 <= i < |a| :: SameLetter(a[i], b[i]) || (a[i] in "-_" && b[i] in "-_")
  {
    if Norm(a) == Norm(b) {
      assert |a| == |Norm(a)| == |b|;
      forall i | 0 <= i < |a| ensures SameLetter(a[i], b[i]) || (a[i] in "-_" && b[i] in "-_") {
        assert Norm(a)[i] == Norm(b)[i];
        assert '-' in "-_" && '_' in "-_" by { assert "-_"[0] == '-' && "-_"[1] == '_'; }
      }
    }
  }

  lemma NormIdempotent(name: string)
    ensures Norm(Norm(name)) == Norm(name)
  {
    assert forall c: char :: NormChar(NormChar(c)) == NormChar(c);
  }

  /** The requirement counts as a dependency of `pkg`. */
  predicate Counts(pkg: string, r: Requirement) {
    !r.forExtra && r.base != "" && Norm(r.base) != pkg
  }

  function SubDependencies(pkg: string, rs: seq<Requirement>): seq<string> {
    if rs == [] then []
    else SubDependencies(pkg, rs[..|rs| - 1])
         + if Counts(pkg, rs[|rs| - 1]) then [Norm(rs[|rs| - 1].base)] else []
  }

  /** The direct dependencies of a package; one that is not installed has none. */
  function DependenciesOf(reg: Registry, pkg: string): seq<string> {
    if pkg in reg then SubDependencies(pkg, reg[pkg].requirements) else []
  }

  // ----- Reachability, stated without any worklist -----

  predicate IsRoot(direct: seq<string>, pkg: string) {
    exists d :: d in direct && Norm(d) == pkg
  }

  /** A chain of dependencies that starts at a declared package. */
  predicate IsPath(reg: Registry, direct: seq<string>, path: seq<string>) {
    && path != [] && IsRoot(direct, path[0])
    && forall i | 0 < i < |path| :: path[i] in DependenciesOf(reg, path[i - 1])
  }

  ghost predicate Reachable(reg: Registry, direct: seq<string>, pkg: string) {
    exists path :: IsPath(reg, direct, path) && path[|path| - 1] == pkg
  }

  lemma RootReachable(reg: Registry, direct: seq<string>, pkg: string)
    requires IsRoot(direct, pkg)
    ensures Reachable(reg, direct, pkg)
  {
    assert IsPath(reg, direct, [pkg]);
  }

  lemma StepReachable(reg: Registry, direct: seq<string>, pkg: string, dep: string)
    requires Reachable(reg, direct, pkg) && dep in DependenciesOf(reg, pkg)
    ensures Reachable(reg, direct, dep)
  {
    var path :| IsPath(reg, direct, path) && path[|path| - 1] == pkg;
    assert IsPath(reg, direct, path + [dep]);
    assert (path + [dep])[|path|] == dep;
  }

  /** A set that holds the roots and is closed under dependencies holds everything reachable. */
  lemma {:induction false} ClosedHoldsPaths(reg: Registry, direct: seq<string>, closed: set<string>, path: seq<string>)
    requires forall d | d in direct :: Norm(d) in closed
    requires forall p, q | p in closed && q in DependenciesOf(reg, p) :: q in closed
    requires IsPath(reg, direct, path)
    ensures path[|path| - 1] in closed
  {
    if |path| > 1 {
      var init := path[..|path| - 1];
      assert IsPath(reg, direct, init);
      ClosedHoldsPaths(reg, direct, closed, init);
    }
  }

  // ----- The worklist -----

  /** All names the worklist can ever meet. */
  function Universe(reg: Registry, direct: seq<string>): set<string> {
    (set d | d in direct :: Norm(d)) +
    (set p, r | p in reg && r in reg[p].requirements :: Norm(r.base))
  }

  lemma {:induction false} SubDependenciesSource(pkg: string, rs: seq<Requirement>, dep: string)
    requires dep in SubDependencies(pkg, rs)
    ensures exists r :: r in rs && Norm(r.base) == dep
  {
    var n := |rs| - 1;
    if dep in SubDependencies(pkg, rs[..n]) {
      SubDependenciesSource(pkg, rs[..n], dep);
      var r :| r in rs[..n] && Norm(r.base) == dep;
      assert r in rs;
    } else {
      assert rs[n] in rs;
    }
  }

  lemma DependencyInUniverse(reg: Registry, direct: seq<string>, pkg: string, dep: string)
    requires dep in DependenciesOf(reg, pkg)
    ensures dep in Universe(reg, direct)
  {
    SubDependenciesSource(pkg, reg[pkg].requirements, dep);
  }

  /** The elements of a list, each once. */
  function Distinct(xs: seq<string>): (r: seq<string>)
    ensures forall x :: x in r <==> x in xs
    ensures forall i, j | 0 <= i < j < |r| :: r[i] != r[j]
  {
    if xs == [] then []
    else
      var init := Distinct(xs[..|xs| - 1]);
      assert xs == xs[..|xs| - 1] + [xs[|xs| - 1]];
      if xs[|xs| - 1] in init then init else init + [xs[|xs| - 1]]
  }

  /** `sorted(list(set(xs)))`. */
  function SortedSet(xs: seq<string>): seq<string> {
    SortBy(Distinct(xs), Whole)
  }

  lemma SortedSetMembers(xs: seq<string>)
    ensures forall x :: x in SortedSet(xs) <==> x in xs
  {
    SameMembers(SortedSet(xs), Distinct(xs));
  }

  /** It is a listing of the elements in ascending order, each once. */
  lemma SortedSetListing(xs: seq<string>)
    ensures SortedBy(SortedSet(xs), Whole)
    ensures forall i, j | 0 <= i < j < |SortedSet(xs)| :: SortedSet(xs)[i] != SortedSet(xs)[j]
  {
    SortBySorted(Distinct(xs), Whole);
    DistinctByMultiset(Distinct(xs), SortedSet(xs));
  }

  /** What is recorded about a package: its version, or the fallback for one that is not installed. */
  function Describe(reg: Registry, direct: seq<string>, pkg: string): Component {
    var version := if pkg in reg then reg[pkg].version else "1.0.0";
    Component(pkg, version, IsRoot(direct, pkg), Purl.Print("pypi", pkg, version))
  }

  /** The loop over a distribution's requirements. */
  method QueueRequirements(pkg: string, rs: seq<Requirement>, closure: map<string, Component>, queue: seq<string>)
    returns (subDeps: seq<string>, queue': seq<string>)
    ensures subDeps == SubDependencies(pkg, rs)
    ensures forall d | d in subDeps :: d in closure || d in queue'
    ensures forall q | q in queue' :: q in queue || q in subDeps
    ensures forall q | q in queue :: q in queue'
  {
    subDeps, queue' := [], queue;
    for i := 0 to |rs|
      invariant subDeps == SubDependencies(pkg, rs[..i])
      invariant forall d | d in subDeps :: d in closure || d in queue'
      invariant forall q | q in queue' :: q in queue || q in subDeps
      invariant forall q | q in queue :: q in queue'
    {
      assert rs[..i + 1][..i] == rs[..i];
      var base := Norm(rs[i].base);
      if rs[i].forExtra { continue; }
      if rs[i].base != "" && base != pkg {
        subDeps := subDeps + [base];
        if base !in closure {
          queue' := queue' + [base];
        }
      }
    }
    assert rs[..|rs|] == rs;
  }

  /**
   What the worklist keeps: everything recorded or queued is reachable, and every root and every
   dependency of something recorded is recorded or queued.
   */
  ghost predicate Progress(reg: Registry, direct: seq<string>, closure: set<string>, queue: seq<string>) {
    && closure <= Universe(reg, direct)
    && (forall p | p in closure :: Reachable(reg, direct, p))
    && (forall q | q in queue :: Norm(q) in Universe(reg, direct) && Reachable(reg, direct, Norm(q)))
    && (forall d | d in direct :: Pending(closure, queue, Norm(d)))
    && (forall p, d | p in closure && d in DependenciesOf(reg, p) :: Pending(closure, queue, d))
  }

  predicate Pending(closure: set<string>, queue: seq<string>, pkg: string) {
    pkg in closure || exists q :: q in queue && Norm(q) == pkg
  }

  lemma StartsWell(reg: Registry, direct: seq<string>)
    ensures Progress(reg, direct, {}, direct)
  {
    forall q | q in direct ensures Reachable(reg, direct, Norm(q)) {
      RootReachable(reg, direct, Norm(q));
    }
  }

  /** Dropping a queued name that is already recorded. */
  lemma DropKeeps(reg: Registry, direct: seq<string>, closure: set<string>, queue: seq<string>)
    requires Progress(reg, direct, closure, queue) && queue != [] && Norm(queue[0]) in closure
    ensures Progress(reg, direct, closure, queue[1..])
  {
    PendingAfterPop(closure, closure, queue, queue[1..]);
  }

  lemma PendingAfterPop(closure: set<string>, closure': set<string>, queue: seq<string>, queue': seq<string>)
    requires queue != [] && closure <= closure' && Norm(queue[0]) in closure'
    requires forall q | q in queue[1..] :: q in queue'
    ensures forall p | Pending(closure, queue, p) :: Pending(closure', queue', p)
  {
    forall p | Pending(closure, queue, p) ensures Pending(closure', queue', p) {
      if p !in closure' {
        var q :| q in queue && Norm(q) == p;
        assert q in queue[1..];
      }
    }
  }

  /** Recording the package at the head of the queue and queueing its dependencies. */
  lemma RecordKeeps(
    reg: Registry, direct: seq<string>, closure: set<string>, queue: seq<string>, queue': seq<string>)
    requires Progress(reg, direct, closure, queue) && queue != []
    requires
      var pkg := Norm(queue[0]);
      var subDeps := DependenciesOf(reg, pkg);
      && (forall d | d in subDeps :: d in closure || d in queue')
      && (forall q | q in queue' :: q in queue[1..] || q in subDeps)
      && (forall q | q in queue[1..] :: q in queue')
    ensures Progress(reg, direct, closure + {Norm(queue[0])}, queue')
  {
    var pkg := Norm(queue[0]);
    var closure' := closure + {pkg};
    PendingAfterPop(closure, closure', queue, queue');
    forall d | d in DependenciesOf(reg, pkg)
      ensures Pending(closure', queue', d) && Reachable(reg, direct, d) && d in Universe(reg, direct) && Norm(d) == d
    {
      StepReachable(reg, direct, pkg, d);
      DependencyInUniverse(reg, direct, pkg, d);
      SubDependenciesSource(pkg, reg[pkg].requirements, d);
      var r :| r in reg[pkg].requirements && Norm(r.base) == d;
      NormIdempotent(r.base);
    }
  }

  lemma EmptyQueueClosed(reg: Registry, direct: seq<string>, closure: set<string>)
    requires Progress(reg, direct, closure, [])
    ensures forall d | d in direct :: Norm(d) in closure
    ensures forall p, d | p in closure && d in DependenciesOf(reg, p) :: d in closure
  {
    forall d | d in direct ensures Norm(d) in closure {
      assert Pending(closure, [], Norm(d));
    }
    forall p, d | p in closure && d in DependenciesOf(reg, p) ensures d in closure {
      assert Pending(closure, [], d);
    }
  }

  lemma EndsComplete(reg: Registry, direct: seq<string>, closure: set<string>)
    requires Progress(reg, direct, closure, [])
    ensures forall p: string :: p in closure <==> Reachable(reg, direct, p)
  {
    EmptyQueueClosed(reg, direct, closure);
    forall p: string | Reachable(reg, direct, p) ensures p in closure {
      var path :| IsPath(reg, direct, path) && path[|path| - 1] == p;
      ClosedHoldsPaths(reg, direct, closure, path);
    }
  }

  /**
   The worklist terminates on every finite registry, cycles and duplicates included.  It records
   exactly the packages reachable from the declared ones, each once, and exactly their dependencies,
   all of which are recorded packages themselves.
   */
  method CollectPythonDependencies(reg: Registry, direct: seq<string>)
    returns (components: seq<Component>, depGraph: map<string, seq<string>>)
    ensures Complete(reg, direct, components, depGraph)
    ensures forall p: string :: p in depGraph <==> Reachable(reg, direct, p)
  {
    var closure: map<string, Component> := map[];
    var queue := direct;
    components, depGraph := [], map[];
    StartsWell(reg, direct);
    while queue != []
      invariant Progress(reg, direct, closure.Keys, queue)
      invariant Recorded(reg, direct, closure, components, depGraph)
      decreases Universe(reg, direct) - closure.Keys, |queue|
    {
      var pkg := Norm(queue[0]);
      if pkg in closure {
        DropKeeps(reg, direct, closure.Keys, queue);
        queue := queue[1..];
      } else {
        var subDeps, rest := Expand(reg, direct, closure, queue);
        closure, components, depGraph := Record(reg, direct, closure, components, depGraph, pkg, subDeps);
        queue := rest;
      }
    }
    EndsComplete(reg, direct, closure.Keys);
    EmptyQueueClosed(reg, direct, closure.Keys);
    RecordedComplete(reg, direct, closure, components, depGraph);
  }

  /** Looks a package up, if it is installed, and queues what it requires. */
  method Expand(reg: Registry, direct: seq<string>, closure: map<string, Component>, queue: seq<string>)
    returns (subDeps: seq<string>, queue': seq<string>)
    requires queue != [] && Progress(reg, direct, closure.Keys, queue)
    ensures subDeps == DependenciesOf(reg, Norm(queue[0])) && Norm(queue[0]) in Universe(reg, direct)
    ensures Progress(reg, direct, closure.Keys + {Norm(queue[0])}, queue')
  {
    var pkg := Norm(queue[0]);
    subDeps, queue' := [], queue[1..];
    if pkg in reg {
      subDeps, queue' := QueueRequirements(pkg, reg[pkg].requirements, closure, queue');
    }
    assert queue[0] in queue;
    RecordKeeps(reg, direct, closure.Keys, queue, queue');
  }

  /** Enters a package met for the first time into the results. */
  method Record(reg: Registry, direct: seq<string>, closure: map<string, Component>, components: seq<Component>,
                depGraph: map<string, seq<string>>, pkg: string, subDeps: seq<string>)
    returns (closure': map<string, Component>, components': seq<Component>, depGraph': map<string, seq<string>>)
    requires Recorded(reg, direct, closure, components, depGraph) && pkg !in closure
    requires subDeps == DependenciesOf(reg, pkg)
    ensures Recorded(reg, direct, closure', components', depGraph')
    ensures closure'.Keys == closure.Keys + {pkg}
  {
    var component := Describe(reg, direct, pkg);
    depGraph' := depGraph[pkg := SortedSet(subDeps)];
    closure', components' := closure[pkg := component], components + [component];
    DescribedMore(reg, direct, closure, pkg);
    RecordedMore(reg, direct, closure, components, depGraph, pkg);
  }

  lemma RecordedMore(reg: Registry, direct: seq<string>, closure: map<string, Component>, components: seq<Component>,
                     depGraph: map<string, seq<string>>, pkg: string)
    requires Recorded(reg, direct, closure, components, depGraph) && pkg !in closure
    ensures
      var c := Describe(reg, direct, pkg);
      Recorded(reg, direct, closure[pkg := c], components + [c],
               depGraph[pkg := SortedSet(DependenciesOf(reg, pkg))])
  {
    var c := Describe(reg, direct, pkg);
    assert Listed(components + [c], closure[pkg := c]) by { ListedMore(components, closure, c); }
    GraphMore(reg, depGraph, pkg);
    DescribedMore(reg, direct, closure, pkg);
  }

  /** The closure describes its packages as installed. */
  ghost predicate Described(reg: Registry, direct: seq<string>, closure: map<string, Component>) {
    forall p | p in closure :: closure[p] == Describe(reg, direct, p)
  }

  lemma DescribedMore(reg: Registry, direct: seq<string>, closure: map<string, Component>, pkg: string)
    requires Described(reg, direct, closure)
    ensures Described(reg, direct, closure[pkg := Describe(reg, direct, pkg)])
    ensures (closure[pkg := Describe(reg, direct, pkg)]).Keys == closure.Keys + {pkg}
  {
  }

  /** The graph lists, for each of its packages, its dependencies in sorted order. */
  ghost predicate GraphOf(reg: Registry, graph: map<string, seq<string>>) {
    forall p | p in graph :: graph[p] == SortedSet(DependenciesOf(reg, p))
  }

  lemma GraphMore(reg: Registry, graph: map<string, seq<string>>, pkg: string)
    requires GraphOf(reg, graph)
    ensures GraphOf(reg, graph[pkg := SortedSet(DependenciesOf(reg, pkg))])
    ensures (graph[pkg := SortedSet(DependenciesOf(reg, pkg))]).Keys == graph.Keys + {pkg}
  {
  }

  /** The three results describe the same packages. */
  ghost predicate Recorded(reg: Registry, direct: seq<string>, closure: map<string, Component>,
                           components: seq<Component>, depGraph: map<string, seq<string>>) {
    && depGraph.Keys == closure.Keys
    && GraphOf(reg, depGraph)
    && Described(reg, direct, closure)
    && Listed(components, closure)
  }

  /**
   The component list and the dependency graph fit together: one component per package of the
   graph, described as installed, with exactly its dependencies, none of which leaves the graph.
   */
  ghost predicate Complete(reg: Registry, direct: seq<string>, components: seq<Component>,
                           depGraph: map<string, seq<string>>) {
    && (forall i, j | 0 <= i < j < |components| :: components[i].name != components[j].name)
    && (forall c | c in components :: c.name in depGraph && c == Describe(reg, direct, c.name))
    && (forall p | p in depGraph :: Describe(reg, direct, p) in components)
    && GraphOf(reg, depGraph)
    && (forall p, d | p in depGraph && d in depGraph[p] :: d in depGraph)
  }

  lemma RecordedComplete(reg: Registry, direct: seq<string>, closure: map<string, Component>,
                         components: seq<Component>, depGraph: map<string, seq<string>>)
    requires Recorded(reg, direct, closure, components, depGraph)
    requires forall p, d | p in closure && d in DependenciesOf(reg, p) :: d in closure
    ensures Complete(reg, direct, components, depGraph)
  {
    forall p, d | p in depGraph && d in depGraph[p] ensures d in depGraph {
      SortedSetMembers(DependenciesOf(reg, p));
    }
    forall p | p in depGraph ensures Describe(reg, direct, p) in components {
      assert closure[p] in components;
    }
  }

  /** `components` are the values of `closure` in insertion order, one per key. */
  ghost predicate Listed(components: seq<Component>, closure: map<string, Component>) {
    && (forall c | c in components :: c.name in closure && closure[c.name] == c)
    && (forall p | p in closure :: closure[p] in components && closure[p].name == p)
    && (forall i, j | 0 <= i < j < |components| :: components[i].name != components[j].name)
  }

  lemma ListedMore(components: seq<Component>, closure: map<string, Component>, c: Component)
    requires Listed(components, closure) && c.name !in closure
    ensures Listed(components + [c], closure[c.name := c])
  {
    var more, bigger := components + [c], closure[c.name := c];
    forall p | p in bigger ensures bigger[p] in more && bigger[p].name == p
    {
      assert c in more;
      if p != c.name {
        assert closure[p] in components;
      }
    }
    forall i, j | 0 <= i < j < |more| ensures more[i].name != more[j].name {
      if j == |components| {
        assert components[i] in components;
      }
    }
  }

  // ----- Emitted references -----

  function BomRef(c: Component): string {
    c.purl + "#python"
  }

  /** The version of the first component with a name, which Python's `next(..., "1.0.0")` looks up. */
  function VersionOf(components: seq<Component>, name: string): Option<string> {
    if components == [] then None
    else if components[0].name == name then Some(components[0].version)
    else VersionOf(components[1..], name)
  }

  /** The references to those children that have a component. */
  function ChildRefs(components: seq<Component>, children: seq<string>): seq<string> {
    if children == [] then []
    else
      var version := VersionOf(components, children[0]);
      (if version.Some? then [Purl.Print("pypi", children[0], version.value) + "#python"] else [])
      + ChildRefs(components, children[1..])
  }

  datatype Dependency = Dependency(ref: string, dependsOn: seq<string>)

  function DependencyOf(components: seq<Component>, graph: map<string, seq<string>>, c: Component): Dependency {
    Dependency(BomRef(c), ChildRefs(components, if c.name in graph then graph[c.name] else []))
  }

  /** One entry per component that has children, in component order. */
  function Section(components: seq<Component>, graph: map<string, seq<string>>, upTo: nat): seq<Dependency>
    requires upTo <= |components|
  {
    if upTo == 0 then []
    else
      var d := DependencyOf(components, graph, components[upTo - 1]);
      Section(components, graph, upTo - 1) + if d.dependsOn != [] then [d] else []
  }

  /** The intra-Python part of the dependency section. */
  method PythonDependencies(components: seq<Component>, graph: map<string, seq<string>>)
    returns (deps: seq<Dependency>)
    ensures deps == Section(components, graph, |components|)
  {
    deps := [];
    for i := 0 to |components|
      invariant deps == Section(components, graph, i)
    {
      var c := components[i];
      var childRefs := ChildRefs(components, if c.name in graph then graph[c.name] else []);
      if childRefs != [] {
        deps := deps + [Dependency(BomRef(c), childRefs)];
      }
    }
  }

  lemma {:induction false} SectionMember(components: seq<Component>, graph: map<string, seq<string>>, upTo: nat,
                                         d: Dependency)
    requires upTo <= |components|
    ensures d in Section(components, graph, upTo) <==>
            d.dependsOn != [] && exists i :: 0 <= i < upTo && d == DependencyOf(components, graph, components[i])
  {
    if upTo > 0 {
      SectionMember(components, graph, upTo - 1, d);
    }
  }

  /** Every component carries the package URL of its name and version. */
  predicate Labelled(components: seq<Component>) {
    forall c | c in components :: c.purl == Purl.Print("pypi", c.name, c.version)
  }

  lemma {:induction false} VersionOfFound(components: seq<Component>, name: string)
    ensures VersionOf(components, name).Some? <==> exists c :: c in components && c.name == name
    ensures VersionOf(components, name).Some? ==>
              exists c :: c in components && c.name == name && c.version == VersionOf(components, name).value
  {
    if components != [] {
      VersionOfFound(components[1..], name);
      assert components == [components[0]] + components[1..];
      assert components[0] in components;
    }
  }

  /** Every emitted child reference names an emitted component. */
  lemma {:induction false} ChildRefsExist(components: seq<Component>, children: seq<string>)
    requires Labelled(components)
    ensures forall ref | ref in ChildRefs(components, children) :: exists c :: c in components && BomRef(c) == ref
  {
    if children != [] {
      ChildRefsExist(components, children[1..]);
      VersionOfFound(components, children[0]);
      if VersionOf(components, children[0]).Some? {
        var c :| c in components && c.name == children[0] && c.version == VersionOf(components, children[0]).value;
        assert BomRef(c) == Purl.Print("pypi", c.name, c.version) + "#python";
      }
    }
  }

  /** When every child has a component, no child is dropped and each reference is that of its component. */
  lemma {:induction false} NoChildDropped(reg: Registry, direct: seq<string>, components: seq<Component>,
                                          children: seq<string>)
    requires forall c | c in components :: c == Describe(reg, direct, c.name)
    requires forall d | d in children :: Describe(reg, direct, d) in components
    ensures |ChildRefs(components, children)| == |children|
    ensures forall k | 0 <= k < |children| ::
              ChildRefs(components, children)[k] == BomRef(Describe(reg, direct, children[k]))
  {
    if children != [] {
      NoChildDropped(reg, direct, components, children[1..]);
      VersionOfFound(components, children[0]);
      assert Describe(reg, direct, children[0]).name == children[0];
    }
  }

  /** The entry names the package and lists its dependencies' components. */
  ghost predicate Lists(reg: Registry, direct: seq<string>, d: Dependency, c: Component) {
    var deps := SortedSet(DependenciesOf(reg, c.name));
    && d.ref == BomRef(c) && |d.dependsOn| == |deps|
    && forall k | 0 <= k < |deps| :: d.dependsOn[k] == BomRef(Describe(reg, direct, deps[k]))
  }

  lemma EntryOf(reg: Registry, direct: seq<string>, components: seq<Component>, graph: map<string, seq<string>>,
                c: Component, d: Dependency)
    requires Complete(reg, direct, components, graph) && c in components
    ensures d == DependencyOf(components, graph, c) <==> Lists(reg, direct, d, c)
    ensures DependencyOf(components, graph, c).dependsOn == [] <==> DependenciesOf(reg, c.name) == []
  {
    var entry := DependencyOf(components, graph, c);
    NoChildDropped(reg, direct, components, graph[c.name]);
    SortedSetMembers(DependenciesOf(reg, c.name));
    if Lists(reg, direct, d, c) {
      assert d.dependsOn == entry.dependsOn;
    }
  }

  /**
   From worklist to document: for the results of the worklist, the section holds for each recorded
   package with dependencies exactly those, in sorted order and by the references of their own
   components, and nothing else.
   */
  lemma ReferencesComplete(reg: Registry, direct: seq<string>, components: seq<Component>,
                           graph: map<string, seq<string>>, d: Dependency)
    requires Complete(reg, direct, components, graph)
    ensures d in Section(components, graph, |components|) <==>
            exists c :: c in components && DependenciesOf(reg, c.name) != [] && Lists(reg, direct, d, c)
  {
    SectionMember(components, graph, |components|, d);
    forall c | c in components
      ensures d == DependencyOf(components, graph, c) <==> Lists(reg, direct, d, c)
      ensures DependencyOf(components, graph, c).dependsOn == [] <==> DependenciesOf(reg, c.name) == []
    {
      EntryOf(reg, direct, components, graph, c, d);
    }
  }

  /** No dangling reference: whatever the section refers to is an emitted component. */
  lemma ReferencesExist(reg: Registry, direct: seq<string>, components: seq<Component>,
                        graph: map<string, seq<string>>, d: Dependency, ref: string)
    requires Complete(reg, direct, components, graph)
    requires d in Section(components, graph, |components|) && (ref == d.ref || ref in d.dependsOn)
    ensures exists c :: c in components && BomRef(c) == ref
  {
    SectionMember(components, graph, |components|, d);
    var i :| 0 <= i < |components| && d == DependencyOf(components, graph, components[i]);
    ChildRefsExist(components, graph[components[i].name]);
  }

  // ----- What is recorded about a package -----

  /** A package depends on what its requirements name, extras and itself aside. */
  lemma {:induction false} DependencyIff(reg: Registry, pkg: string, dep: string)
    ensures dep in DependenciesOf(reg, pkg) <==>
            pkg in reg && dep != pkg
            && exists r :: r in reg[pkg].requirements && !r.forExtra && r.base != "" && Norm(r.base) == dep
  {
    if pkg in reg {
      SubDependencyIff(pkg, reg[pkg].requirements, dep);
    }
  }

  lemma {:induction false} SubDependencyIff(pkg: string, rs: seq<Requirement>, dep: string)
    ensures dep in SubDependencies(pkg, rs) <==>
            dep != pkg && exists r :: r in rs && !r.forExtra && r.base != "" && Norm(r.base) == dep
  {
    if rs != [] {
      var init, last := rs[..|rs| - 1], rs[|rs| - 1];
      SubDependencyIff(pkg, init, dep);
      assert rs == init + [last];
      assert forall r :: r in rs <==> r in init || r == last;
    }
  }

  lemma DescribedAsInstalled(reg: Registry, direct: seq<string>, name: string)
    ensures
      var c := Describe(reg, direct, name);
      && c.name == name
      && (name in reg ==> c.version == reg[name].version) && (name !in reg ==> c.version == "1.0.0")
      && (c.isDirect <==> exists d :: d in direct && Norm(d) == name)
      && c.purl == Purl.Print("pypi", name, c.version)
  {
  }

  /**
   From installation to scan: a recorded component carries the installed version, or "1.0.0" when
   nothing is installed, and the online scanner reads name and version back from its package URL,
   exactly when they are safe to print.
   */
  lemma RecordedAsInstalled(reg: Registry, direct: seq<string>, components: seq<Component>,
                            graph: map<string, seq<string>>, c: Component)
    requires Complete(reg, direct, components, graph) && c in components
    ensures c.name in reg ==> c.version == reg[c.name].version
    ensures c.name !in reg ==> c.version == "1.0.0"
    ensures c.isDirect <==> exists d :: d in direct && Norm(d) == c.name
    ensures Purl.OnlineSafe(c.name, c.version) <==>
            Purl.ParseOnline(c.purl) == Some(Purl.Package("PyPI", c.name, c.version))
  {
    DescribedAsInstalled(reg, direct, c.name);
    Purl.OnlineRoundTrip("pypi", c.name, c.version);
  }

  /** The literal reference of a component. */
  lemma ReferenceSpelled(c: Component)
    requires c.purl == Purl.Print("pypi", c.name, c.version)
    ensures BomRef(c) == "pkg:pypi/" + c.name + "@" + c.version + "#python"
  {
    assert "pkg:" + "pypi" + "/" == "pkg:pypi/";
  }
}
