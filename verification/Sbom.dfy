/** The dependency walk of tools/generate_node_sbom.py over a finite graph of package objects, which
    may be shared or cyclic, and the document it produces. Objects are identified by `NodeId`. */
module Sbom {
  import opened Wrappers
  import opened Distinct
  import opened Sorting
  import opened Purl
  import opened Reachability

  // ---------------------------------------------------------------------------------------------
  // The project

  type NodeId = nat

  datatype Group = Dependencies | OptionalDependencies | DevDependencies

  datatype Child = Child(name: Bytes, node: NodeId, group: Group)

  datatype Entry = Entry(name: Bytes, node: NodeId)

  /** A package object: its version as `package_version` reads it, and its three dependency groups. */
  datatype Node = Node(version: Bytes, dependencies: seq<Entry>, optional: seq<Entry>, dev: seq<Entry>)

  datatype Project = Project(nodes: map<NodeId, Node>, root: NodeId, rootName: Bytes, rootVersion: Bytes)

  function InGroup(entries: seq<Entry>, group: Group): seq<Child> {
    seq(|entries|, i requires 0 <= i < |entries| => Child(entries[i].name, entries[i].node, group))
  }

  /** `dependency_items` */
  function Items(p: Project, n: NodeId): seq<Child>
    requires n in p.nodes
  {
    InGroup(p.nodes[n].dependencies, Dependencies)
    + InGroup(p.nodes[n].optional, OptionalDependencies)
    + InGroup(p.nodes[n].dev, DevDependencies)
  }

  /** Every reference to an object leads to an object. */
  ghost predicate WellFormed(p: Project) {
    && p.root in p.nodes
    && forall n, c | n in p.nodes && c in Items(p, n) :: c.node in p.nodes
  }

  // ---------------------------------------------------------------------------------------------
  // What the walk should find

  datatype Marker = Marker(ref: string, node: NodeId)

  function RootRef(p: Project): string {
    PackagePurl(p.rootName, p.rootVersion)
  }

  function Ref(p: Project, c: Child): string
    requires c.node in p.nodes
  {
    PackagePurl(c.name, p.nodes[c.node].version)
  }

  function MarkerOf(p: Project, c: Child): Marker
    requires c.node in p.nodes
  {
    Marker(Ref(p, c), c.node)
  }

  ghost function Starts(p: Project): iset<Marker>
    requires WellFormed(p)
  {
    iset c | c in Items(p, p.root) :: MarkerOf(p, c)
  }

  ghost function Steps(p: Project): iset<(Marker, Marker)>
    requires WellFormed(p)
  {
    iset k: Marker, c: Child | k.node in p.nodes && c in Items(p, k.node) :: (k, MarkerOf(p, c))
  }

  /** The object is reached from the root, last under this reference. */
  ghost predicate Reachable(p: Project, m: Marker)
    requires WellFormed(p)
  {
    Leads(Starts(p), Steps(p), m)
  }

  ghost predicate Reached(p: Project, ref: string)
    requires WellFormed(p)
  {
    exists m: Marker :: m.ref == ref && Reachable(p, m)
  }

  /** `c` hangs below the root, or below a reachable object known as `parent`. */
  ghost predicate Edge(p: Project, parent: string, c: Child)
    requires WellFormed(p)
  {
    || (parent == RootRef(p) && c in Items(p, p.root))
    || exists m: Marker :: m.ref == parent && m.node in p.nodes && c in Items(p, m.node) && Reachable(p, m)
  }

  /** Some object known as `from` depends on an object known as `to`. */
  ghost predicate Link(p: Project, from: string, to: string)
    requires WellFormed(p)
  {
    exists c: Child :: Edge(p, from, c) && c.node in p.nodes && Ref(p, c) == to
  }

  /** Some edge reaches `ref` through the group `dependencies`. */
  ghost predicate RequiredRef(p: Project, ref: string)
    requires WellFormed(p)
  {
    exists from: string, c: Child ::
      Edge(p, from, c) && c.node in p.nodes && Ref(p, c) == ref && c.group == Dependencies
  }

  lemma EdgeReaches(p: Project, parent: string, c: Child)
    requires WellFormed(p) && Edge(p, parent, c)
    ensures c.node in p.nodes && Reachable(p, MarkerOf(p, c))
  {
    if parent == RootRef(p) && c in Items(p, p.root) {
      LeadsToStart(Starts(p), Steps(p), MarkerOf(p, c));
    } else {
      var m: Marker :| m.ref == parent && m.node in p.nodes && c in Items(p, m.node) && Reachable(p, m);
      LeadsOn(Starts(p), Steps(p), m, MarkerOf(p, c));
    }
  }

  // ---------------------------------------------------------------------------------------------
  // The state of the walk

  datatype Component = Component(ref: string, name: Bytes, version: Bytes, required: bool)

  datatype State = State(components: map<string, Component>, edges: map<string, set<string>>, visited: set<Marker>)

  /** The component first made for a child. */
  function Made(p: Project, c: Child): Component
    requires c.node in p.nodes
  {
    Component(Ref(p, c), c.name, p.nodes[c.node].version, c.group == Dependencies)
  }

  /** `t` differs from `s` by one edge from `parent` to the component and by the component itself: a new one
      is entered as made, a known one keeps everything but its scope, which can only rise. */
  ghost predicate Adds(s: State, t: State, parent: string, made: Component) {
    && t.visited == s.visited
    && t.edges.Keys == s.edges.Keys + {parent, made.ref} && t.components.Keys == s.components.Keys + {made.ref}
    && (forall from, to | from in t.edges ::
          to in t.edges[from] <==> (from in s.edges && to in s.edges[from]) || (from == parent && to == made.ref))
    && (forall r | r in s.components && r != made.ref :: t.components[r] == s.components[r])
    && t.components[made.ref] ==
       if made.ref in s.components
       then s.components[made.ref].(required := s.components[made.ref].required || made.required)
       else made
  }

  /** What may be recorded: the markers (all in one finite set, which bounds the recursion), the packages,
      the links and the required references of the project. */
  datatype World = World(root: string, all: set<Marker>, markers: iset<Marker>, packages: iset<(string, Bytes, Bytes)>,
                         links: iset<(string, string)>, required: iset<string>)

  /** Registering `made` under `parent` records nothing outside the world. */
  ghost predicate Allowed(w: World, parent: string, made: Component) {
    && (made.ref, made.name, made.version) in w.packages
    && (parent, made.ref) in w.links
    && (made.required ==> made.ref in w.required)
  }

  ghost predicate Legal(p: Project, w: World, parent: string, c: Child) {
    c.node in p.nodes && MarkerOf(p, c) in w.markers && Allowed(w, parent, Made(p, c))
  }

  ghost predicate ClosedWorld(p: Project, w: World) {
    forall m | m in w.markers ::
      m in w.all && m.node in p.nodes && forall c | c in Items(p, m.node) :: Legal(p, w, m.ref, c)
  }

  /** Nothing recorded is wrong, and components and edges have the same references but for the root. */
  ghost predicate Faithful(w: World, s: State) {
    && (forall m | m in s.visited :: m in w.markers)
    && s.edges.Keys == {w.root} + s.components.Keys
    && (forall from, to | from in s.edges && to in s.edges[from] :: (from, to) in w.links)
    && (forall r | r in s.components :: Described(w, r, s.components[r]))
  }

  ghost predicate Described(w: World, ref: string, component: Component) {
    && component.ref == ref
    && (ref, component.name, component.version) in w.packages
    && (component.required ==> ref in w.required)
  }

  /** The child has been handled under `parent`. */
  predicate Registered(p: Project, s: State, parent: string, c: Child) {
    c.node in p.nodes && Recorded(s, parent, Made(p, c)) && MarkerOf(p, c) in s.visited
  }

  predicate Recorded(s: State, parent: string, made: Component) {
    && parent in s.edges && made.ref in s.edges[parent]
    && made.ref in s.components && (made.required ==> s.components[made.ref].required)
  }

  ghost predicate Expanded(p: Project, s: State, m: Marker) {
    m.node in p.nodes && forall c | c in Items(p, m.node) :: Registered(p, s, m.ref, c)
  }

  /** Every visited marker is expanded, but for those whose visit is still running. */
  ghost predicate CompleteExcept(p: Project, s: State, running: set<Marker>) {
    forall m | m in s.visited && m !in running :: Expanded(p, s, m)
  }

  ghost predicate Grows(s: State, t: State) {
    && s.visited <= t.visited
    && (forall r | r in s.edges :: r in t.edges && s.edges[r] <= t.edges[r])
    && (forall r | r in s.components :: r in t.components && (s.components[r].required ==> t.components[r].required))
  }

  /** Adding an allowed child keeps everything recorded true. */
  lemma AddsFaithful(w: World, s: State, t: State, parent: string, made: Component)
    requires Adds(s, t, parent, made) && Allowed(w, parent, made) && Faithful(w, s) && parent in s.edges
    ensures Faithful(w, t)
  {
    forall r | r in t.components ensures Described(w, r, t.components[r]) {
      assert r in s.components ==> Described(w, r, s.components[r]);
    }
    forall from, to | from in t.edges && to in t.edges[from] ensures (from, to) in w.links {
    }
  }

  /** It records the child and loses nothing. */
  lemma AddsRecords(s: State, t: State, parent: string, made: Component)
    requires Adds(s, t, parent, made)
    ensures Grows(s, t) && Recorded(t, parent, made)
  {
  }

  lemma GrowsTransitive(s: State, t: State, u: State)
    requires Grows(s, t) && Grows(t, u)
    ensures Grows(s, u)
  {
  }

  lemma GrowthKeepsComplete(p: Project, s: State, t: State, running: set<Marker>)
    requires CompleteExcept(p, s, running) && Grows(s, t)
    requires t.visited <= s.visited + running
    ensures CompleteExcept(p, t, running)
  {
    forall m | m in t.visited && m !in running ensures Expanded(p, t, m) {
      assert Expanded(p, s, m);
    }
  }

  lemma VisitDone(p: Project, s: State, running: set<Marker>, m: Marker)
    requires CompleteExcept(p, s, running + {m}) && Expanded(p, s, m)
    ensures CompleteExcept(p, s, running)
  {
    forall k | k in s.visited && k !in running ensures Expanded(p, s, k) {
    }
  }

  lemma GrowthKeepsRegistered(p: Project, s: State, t: State, parent: string, items: seq<Child>, i: nat)
    requires Grows(s, t) && i <= |items| && forall j | 0 <= j < i :: Registered(p, s, parent, items[j])
    ensures forall j | 0 <= j < i :: Registered(p, t, parent, items[j])
  {
  }

  // ---------------------------------------------------------------------------------------------
  // The walk

  class Walk {
    const project: Project
    var components: map<string, Component>
    var edges: map<string, set<string>>
    var visited: set<Marker>

    constructor (project: Project)
      ensures this.project == project
      ensures Current() == State(map[], map[RootRef(project) := {}], {})
    {
      this.project := project;
      components, edges, visited := map[], map[RootRef(project) := {}], {};
    }

    function Current(): State
      reads this
    {
      State(components, edges, visited)
    }

    /** The part of `visit` before the marker test. */
    method Note(parent: string, made: Component)
      modifies this
      ensures Adds(old(Current()), Current(), parent, made)
    {
      var ref := made.ref;
      edges := edges[parent := (if parent in edges then edges[parent] else {}) + {ref}];
      if ref !in edges {
        edges := edges[ref := {}];
      }
      if ref !in components {
        components := components[ref := made];
      } else if made.required {
        components := components[ref := components[ref].(required := true)];
      }
    }

    /** `visit`, in any closed world; `running` are the markers whose visit has not returned. */
    method Visit(parent: string, c: Child, ghost w: World, ghost running: set<Marker>)
      requires ClosedWorld(project, w) && Legal(project, w, parent, c) && parent in edges
      requires Faithful(w, Current()) && CompleteExcept(project, Current(), running)
      modifies this
      ensures Faithful(w, Current()) && CompleteExcept(project, Current(), running)
      ensures Grows(old(Current()), Current()) && Registered(project, Current(), parent, c)
      decreases w.all - visited, 0
    {
      var made := Made(project, c);
      ghost var before := Current();
      Note(parent, made);
      AddsFaithful(w, before, Current(), parent, made);
      AddsRecords(before, Current(), parent, made);
      GrowthKeepsComplete(project, before, Current(), running);
      var marker := Marker(made.ref, c.node);
      if marker in visited {
        return;
      }
      ghost var noted := Current();
      visited := visited + {marker};
      GrowthKeepsComplete(project, noted, Current(), running + {marker});
      VisitItems(marker.ref, Items(project, c.node), w, running + {marker});
      assert Expanded(project, Current(), marker);
      VisitDone(project, Current(), running, marker);
    }

    /** The loop over the children of one object. */
    method VisitItems(parent: string, items: seq<Child>, ghost w: World, ghost running: set<Marker>)
      requires ClosedWorld(project, w) && parent in edges
      requires forall c | c in items :: Legal(project, w, parent, c)
      requires Faithful(w, Current()) && CompleteExcept(project, Current(), running)
      modifies this
      ensures Faithful(w, Current()) && CompleteExcept(project, Current(), running)
      ensures Grows(old(Current()), Current())
      ensures forall c | c in items :: Registered(project, Current(), parent, c)
      decreases w.all - visited, 1
    {
      for i := 0 to |items|
        invariant Faithful(w, Current()) && CompleteExcept(project, Current(), running)
        invariant Grows(old(Current()), Current())
        invariant forall j | 0 <= j < i :: Registered(project, Current(), parent, items[j])
      {
        ghost var before := Current();
        Visit(parent, items[i], w, running);
        GrowsTransitive(old(Current()), before, Current());
        GrowthKeepsRegistered(project, before, Current(), parent, items, i);
      }
    }
  }

  // ---------------------------------------------------------------------------------------------
  // The walk finds exactly the reachable part

  /** Every marker any walk can set. */
  function AllMarkers(p: Project): set<Marker>
    requires WellFormed(p)
  {
    set n, c | n in p.nodes && c in Items(p, n) :: MarkerOf(p, c)
  }

  ghost function ProjectWorld(p: Project): World
    requires WellFormed(p)
  {
    World(RootRef(p), AllMarkers(p),
          iset m: Marker | Reachable(p, m),
          iset ref: string, name: Bytes, version: Bytes | ref == PackagePurl(name, version) && Reached(p, ref) ::
            (ref, name, version),
          iset from: string, to: string | Link(p, from, to) :: (from, to),
          iset ref: string | RequiredRef(p, ref))
  }

  lemma EdgeIsLegal(p: Project, parent: string, c: Child)
    requires WellFormed(p) && Edge(p, parent, c)
    ensures Legal(p, ProjectWorld(p), parent, c)
  {
    EdgeReaches(p, parent, c);
    assert MarkerOf(p, c).ref == Ref(p, c);
    assert Reached(p, Ref(p, c));
    assert Link(p, parent, Ref(p, c));
    assert c.group == Dependencies ==> RequiredRef(p, Ref(p, c));
  }

  lemma ChildEdge(p: Project, m: Marker, c: Child)
    requires WellFormed(p) && m.node in p.nodes && Reachable(p, m) && c in Items(p, m.node)
    ensures Edge(p, m.ref, c)
  {
  }

  lemma ReachableIsMarker(p: Project, m: Marker)
    requires WellFormed(p) && Reachable(p, m)
    ensures m in AllMarkers(p) && m.node in p.nodes
  {
    LastStep(Starts(p), Steps(p), m);
  }

  lemma ProjectWorldIsClosed(p: Project)
    requires WellFormed(p)
    ensures ClosedWorld(p, ProjectWorld(p))
  {
    var w := ProjectWorld(p);
    forall m | m in w.markers
      ensures m in AllMarkers(p) && m.node in p.nodes && forall c | c in Items(p, m.node) :: Legal(p, w, m.ref, c)
    {
      ReachableIsMarker(p, m);
      forall c | c in Items(p, m.node) ensures Legal(p, w, m.ref, c) {
        ChildEdge(p, m, c);
        EdgeIsLegal(p, m.ref, c);
      }
    }
  }

  /** Nothing is left to visit. */
  ghost predicate Finished(p: Project, s: State)
    requires WellFormed(p)
  {
    && CompleteExcept(p, s, {})
    && forall c | c in Items(p, p.root) :: Registered(p, s, RootRef(p), c)
  }

  lemma VisitedRegisters(p: Project, s: State, m: Marker, c: Child)
    requires CompleteExcept(p, s, {}) && m in s.visited && m.node in p.nodes && c in Items(p, m.node)
    ensures Registered(p, s, m.ref, c)
  {
    assert Expanded(p, s, m);
  }

  lemma FinishedIsClosed(p: Project, s: State)
    requires WellFormed(p) && Finished(p, s)
    ensures Closed(Starts(p), Steps(p), iset m | m in s.visited)
  {
    forall k, n | k in s.visited && (k, n) in Steps(p) ensures n in s.visited {
      var c :| c in Items(p, k.node) && n == MarkerOf(p, c);
      VisitedRegisters(p, s, k, c);
    }
  }

  lemma FinishedVisits(p: Project, s: State, m: Marker)
    requires WellFormed(p) && Finished(p, s) && Reachable(p, m)
    ensures m in s.visited
  {
    FinishedIsClosed(p, s);
    ClosedHoldsAll(Starts(p), Steps(p), iset m | m in s.visited);
  }

  lemma FinishedRegisters(p: Project, s: State, parent: string, c: Child)
    requires WellFormed(p) && Finished(p, s) && Edge(p, parent, c)
    ensures Registered(p, s, parent, c)
  {
    if !(parent == RootRef(p) && c in Items(p, p.root)) {
      var m: Marker :| m.ref == parent && m.node in p.nodes && c in Items(p, m.node) && Reachable(p, m);
      FinishedVisits(p, s, m);
      VisitedRegisters(p, s, m, c);
    }
  }

  /** A reached reference is the end of an edge. */
  lemma ReachedByEdge(p: Project, ref: string) returns (parent: string, c: Child)
    requires WellFormed(p) && Reached(p, ref)
    ensures Edge(p, parent, c) && c.node in p.nodes && Ref(p, c) == ref
  {
    var m: Marker :| m.ref == ref && Reachable(p, m);
    LastStep(Starts(p), Steps(p), m);
    if m in Starts(p) {
      c :| c in Items(p, p.root) && m == MarkerOf(p, c);
      parent := RootRef(p);
    } else {
      var k :| (k, m) in Steps(p) && Leads(Starts(p), Steps(p), k);
      c :| c in Items(p, k.node) && m == MarkerOf(p, c);
      parent := k.ref;
      ChildEdge(p, k, c);
    }
  }

  /** The declarative result: markers, components, scopes and edges are those of the reachable part. */
  ghost predicate IsExact(p: Project, s: State)
    requires WellFormed(p)
  {
    && (forall m :: m in s.visited <==> Reachable(p, m))
    && (forall r :: r in s.components <==> Reached(p, r))
    && (forall r :: r in s.edges <==> r == RootRef(p) || Reached(p, r))
    && (forall from, to | from in s.edges :: to in s.edges[from] <==> Link(p, from, to))
    && (forall r | r in s.components :: IsComponentOf(p, s.components[r], r))
  }

  ghost predicate IsComponentOf(p: Project, component: Component, ref: string)
    requires WellFormed(p)
  {
    && component.ref == ref == PackagePurl(component.name, component.version)
    && (component.required <==> RequiredRef(p, ref))
  }

  lemma FinishedIsExact(p: Project, s: State)
    requires WellFormed(p) && Finished(p, s) && Faithful(ProjectWorld(p), s)
    ensures IsExact(p, s)
  {
    var w := ProjectWorld(p);
    forall m ensures m in s.visited <==> Reachable(p, m) {
      if Reachable(p, m) {
        FinishedVisits(p, s, m);
      }
    }
    forall r ensures r in s.components <==> Reached(p, r) {
      if r in s.components {
        assert Described(w, r, s.components[r]);
      }
      if Reached(p, r) {
        var parent, c := ReachedByEdge(p, r);
        FinishedRegisters(p, s, parent, c);
      }
    }
    forall from, to | from in s.edges ensures to in s.edges[from] <==> Link(p, from, to) {
      if to in s.edges[from] {
        assert (from, to) in w.links;
      }
      if Link(p, from, to) {
        var c: Child :| Edge(p, from, c) && c.node in p.nodes && Ref(p, c) == to;
        FinishedRegisters(p, s, from, c);
      }
    }
    forall r | r in s.components ensures IsComponentOf(p, s.components[r], r) {
      assert Described(w, r, s.components[r]);
      if RequiredRef(p, r) {
        var from: string, c: Child :| Edge(p, from, c) && c.node in p.nodes && Ref(p, c) == r
            && c.group == Dependencies;
        FinishedRegisters(p, s, from, c);
      }
    }
  }

  // ---------------------------------------------------------------------------------------------
  // The document

  datatype Dependency = Dependency(ref: string, dependsOn: seq<string>)

  datatype Bom = Bom(root: string, components: seq<Component>, dependencies: seq<Dependency>)

  function RefsBy<T>(items: seq<T>, refOf: T -> string): (refs: seq<string>)
    ensures |refs| == |items| && forall i | 0 <= i < |refs| :: refs[i] == refOf(items[i])
  {
    seq(|items|, i requires 0 <= i < |items| => refOf(items[i]))
  }

  function ComponentRefs(components: seq<Component>): seq<string> {
    RefsBy(components, (c: Component) => c.ref)
  }

  function DependencyRefs(dependencies: seq<Dependency>): seq<string> {
    RefsBy(dependencies, (d: Dependency) => d.ref)
  }

  /** The document of a project, said without the walk. */
  ghost predicate IsBomOf(p: Project, bom: Bom)
    requires WellFormed(p)
  {
    && bom.root == RootRef(p) == PackagePurl(p.rootName, p.rootVersion)
    && StrictlySorted(ComponentRefs(bom.components))
    && (forall r :: r in ComponentRefs(bom.components) <==> Reached(p, r))
    && (forall component | component in bom.components :: IsComponentOf(p, component, component.ref))
    && StrictlySorted(DependencyRefs(bom.dependencies))
    && (forall r :: r in DependencyRefs(bom.dependencies) <==> r == RootRef(p) || Reached(p, r))
    && (forall d | d in bom.dependencies ::
          StrictlySorted(d.dependsOn) && forall to :: to in d.dependsOn <==> Link(p, d.ref, to))
  }

  /** `[components[key] for key in sorted(components)]` */
  method ListComponents(components: map<string, Component>) returns (list: seq<Component>)
    requires forall r | r in components :: components[r].ref == r
    ensures StrictlySorted(ComponentRefs(list))
    ensures forall r :: r in ComponentRefs(list) <==> r in components
    ensures forall component | component in list ::
            component.ref in components && components[component.ref] == component
  {
    var keys := SortSet(components.Keys);
    list := [];
    for i := 0 to |keys|
      invariant |list| == i && forall j | 0 <= j < i :: keys[j] in components && list[j] == components[keys[j]]
    {
      assert keys[i] in keys;
      list := list + [components[keys[i]]];
    }
    assert ComponentRefs(list) == keys;
  }

  predicate IsListing(list: seq<string>, elements: set<string>) {
    StrictlySorted(list) && Elements(list) == elements
  }

  /** The sorted adjacency lists. */
  method ListDependencies(edges: map<string, set<string>>) returns (list: seq<Dependency>)
    ensures StrictlySorted(DependencyRefs(list))
    ensures forall r :: r in DependencyRefs(list) <==> r in edges
    ensures forall d | d in list :: d.ref in edges && IsListing(d.dependsOn, edges[d.ref])
  {
    var keys := SortSet(edges.Keys);
    list := [];
    for i := 0 to |keys|
      invariant |list| == i && forall j | 0 <= j < i :: list[j].ref == keys[j]
      invariant forall d | d in list :: d.ref in edges && IsListing(d.dependsOn, edges[d.ref])
    {
      assert keys[i] in keys;
      var targets := SortSet(edges[keys[i]]);
      list := list + [Dependency(keys[i], targets)];
    }
    assert DependencyRefs(list) == keys;
  }

  /** `build_bom` */
  method BuildBom(p: Project) returns (bom: Bom)
    requires WellFormed(p)
    ensures IsBomOf(p, bom) && ValidateBom(bom).Success?
  {
    var walk := new Walk(p);
    ghost var w := ProjectWorld(p);
    ProjectWorldIsClosed(p);
    var items := Items(p, p.root);
    forall c | c in items ensures Legal(p, w, RootRef(p), c) {
      EdgeIsLegal(p, RootRef(p), c);
    }
    walk.VisitItems(RootRef(p), items, w, {});
    FinishedIsExact(p, walk.Current());
    var components := ListComponents(walk.components);
    var dependencies := ListDependencies(walk.edges);
    bom := Bom(RootRef(p), components, dependencies);
    BuiltBomIsValid(p, bom);
  }

  // ---------------------------------------------------------------------------------------------
  // The validator

  datatype BomError = DuplicateComponents | UnknownReference(ref: string)

  function KnownRefs(bom: Bom): set<string> {
    {bom.root} + Elements(ComponentRefs(bom.components))
  }

  /** The loop of `validate_bom` over the dependencies. */
  function CheckDependencies(known: set<string>, dependencies: seq<Dependency>): Result<(), BomError> {
    if dependencies == [] then Success(())
    else if dependencies[0].ref !in known || !(Elements(dependencies[0].dependsOn) <= known)
    then Failure(UnknownReference(dependencies[0].ref))
    else CheckDependencies(known, dependencies[1..])
  }

  /** `validate_bom`, past its test of the two format constants. */
  function ValidateBom(bom: Bom): Result<(), BomError> {
    var refs := ComponentRefs(bom.components);
    if |refs| != |Elements(refs)| then Failure(DuplicateComponents)
    else CheckDependencies(KnownRefs(bom), bom.dependencies)
  }

  lemma {:induction false} CheckDependenciesAccepts(known: set<string>, dependencies: seq<Dependency>)
    ensures CheckDependencies(known, dependencies).Success? <==>
            forall d | d in dependencies :: d.ref in known && forall to | to in d.dependsOn :: to in known
  {
    if dependencies != [] {
      CheckDependenciesAccepts(known, dependencies[1..]);
      assert forall d :: d in dependencies <==> d == dependencies[0] || d in dependencies[1..];
      assert Elements(dependencies[0].dependsOn) <= known <==>
          forall to | to in dependencies[0].dependsOn :: to in known;
    }
  }

  /** The validator accepts exactly the documents with unique components and known edge ends. */
  lemma ValidateBomAccepts(bom: Bom)
    ensures ValidateBom(bom).Success? <==>
            && NoDuplicates(ComponentRefs(bom.components))
            && forall d | d in bom.dependencies ::
                 d.ref in KnownRefs(bom) && forall to | to in d.dependsOn :: to in KnownRefs(bom)
  {
    ElementsCount(ComponentRefs(bom.components));
    CheckDependenciesAccepts(KnownRefs(bom), bom.dependencies);
  }

  lemma BomKnows(p: Project, bom: Bom, ref: string)
    requires WellFormed(p) && IsBomOf(p, bom) && (ref == RootRef(p) || Reached(p, ref))
    ensures ref in KnownRefs(bom)
  {
    if ref != RootRef(p) {
      assert ref in ComponentRefs(bom.components);
    }
  }

  lemma BomKnowsDependency(p: Project, bom: Bom, d: Dependency)
    requires WellFormed(p) && IsBomOf(p, bom) && d in bom.dependencies
    ensures d.ref in KnownRefs(bom) && forall to | to in d.dependsOn :: to in KnownRefs(bom)
  {
    var refs := DependencyRefs(bom.dependencies);
    var i :| 0 <= i < |bom.dependencies| && bom.dependencies[i] == d;
    assert refs[i] in refs;
    BomKnows(p, bom, d.ref);
    forall to | to in d.dependsOn ensures to in KnownRefs(bom) {
      LinkReaches(p, d.ref, to);
      BomKnows(p, bom, to);
    }
  }

  lemma BomIsConsistent(p: Project, bom: Bom)
    requires WellFormed(p) && IsBomOf(p, bom)
    ensures NoDuplicates(ComponentRefs(bom.components))
    ensures forall d | d in bom.dependencies ::
              d.ref in KnownRefs(bom) && forall to | to in d.dependsOn :: to in KnownRefs(bom)
  {
    forall d | d in bom.dependencies
      ensures d.ref in KnownRefs(bom) && forall to | to in d.dependsOn :: to in KnownRefs(bom)
    {
      BomKnowsDependency(p, bom, d);
    }
  }

  /** What the generator writes, the validator accepts, on every graph. */
  lemma BuiltBomIsValid(p: Project, bom: Bom)
    requires WellFormed(p) && IsBomOf(p, bom)
    ensures ValidateBom(bom).Success?
  {
    BomIsConsistent(p, bom);
    ValidateBomAccepts(bom);
  }

  lemma LinkReaches(p: Project, from: string, to: string)
    requires WellFormed(p) && Link(p, from, to)
    ensures Reached(p, to)
  {
    var c: Child :| Edge(p, from, c) && c.node in p.nodes && Ref(p, c) == to;
    EdgeReaches(p, from, c);
    assert MarkerOf(p, c).ref == to;
  }

  // ---------------------------------------------------------------------------------------------
  // The document does not depend on the order of the walk

  /** The same objects with the same children, listed in any order and any number of times. */
  ghost predicate SameGraph(p: Project, q: Project)
    requires WellFormed(p) && WellFormed(q)
  {
    && p.root == q.root && p.rootName == q.rootName && p.rootVersion == q.rootVersion
    && p.nodes.Keys == q.nodes.Keys
    && forall n | n in p.nodes ::
         p.nodes[n].version == q.nodes[n].version && forall c :: c in Items(p, n) <==> c in Items(q, n)
  }

  lemma SameSteps(p: Project, q: Project)
    requires WellFormed(p) && WellFormed(q) && SameGraph(p, q)
    ensures Starts(p) == Starts(q) && Steps(p) == Steps(q)
  {
    forall m ensures m in Starts(p) <==> m in Starts(q) {
      if m in Starts(p) {
        var c :| c in Items(p, p.root) && m == MarkerOf(p, c);
        assert c in Items(q, q.root) && m == MarkerOf(q, c);
      }
      if m in Starts(q) {
        var c :| c in Items(q, q.root) && m == MarkerOf(q, c);
        assert c in Items(p, p.root) && m == MarkerOf(p, c);
      }
    }
    forall k, m ensures (k, m) in Steps(p) <==> (k, m) in Steps(q) {
      if (k, m) in Steps(p) {
        var c :| c in Items(p, k.node) && m == MarkerOf(p, c);
        assert c in Items(q, k.node) && m == MarkerOf(q, c);
      }
      if (k, m) in Steps(q) {
        var c :| c in Items(q, k.node) && m == MarkerOf(q, c);
        assert c in Items(p, k.node) && m == MarkerOf(p, c);
      }
    }
  }

  lemma SameReached(p: Project, q: Project, ref: string)
    requires WellFormed(p) && WellFormed(q) && SameGraph(p, q) && Reached(p, ref)
    ensures Reached(q, ref)
  {
    var m: Marker :| m.ref == ref && Reachable(p, m);
    SameSteps(p, q);
  }

  lemma SameEdges(p: Project, q: Project, parent: string, c: Child)
    requires WellFormed(p) && WellFormed(q) && SameGraph(p, q) && Edge(p, parent, c)
    ensures Edge(q, parent, c) && c.node in p.nodes && c.node in q.nodes && Ref(p, c) == Ref(q, c)
  {
    EdgeReaches(p, parent, c);
    if !(parent == RootRef(p) && c in Items(p, p.root)) {
      var m: Marker :| m.ref == parent && m.node in p.nodes && c in Items(p, m.node) && Reachable(p, m);
      SameSteps(p, q);
      assert c in Items(q, m.node);
    }
  }

  lemma SameLinks(p: Project, q: Project, from: string, to: string)
    requires WellFormed(p) && WellFormed(q) && SameGraph(p, q)
    ensures Link(p, from, to) ==> Link(q, from, to)
    ensures RequiredRef(p, to) ==> RequiredRef(q, to)
  {
    if Link(p, from, to) {
      var c: Child :| Edge(p, from, c) && c.node in p.nodes && Ref(p, c) == to;
      SameEdges(p, q, from, c);
    }
    if RequiredRef(p, to) {
      var parent: string, c: Child :| Edge(p, parent, c) && c.node in p.nodes && Ref(p, c) == to
          && c.group == Dependencies;
      SameEdges(p, q, parent, c);
    }
  }

  lemma SameListing(p: Project, q: Project, s: seq<string>, t: seq<string>)
    requires WellFormed(p) && WellFormed(q) && SameGraph(p, q)
    requires StrictlySorted(s) && StrictlySorted(t)
    requires || (forall r :: (r in s <==> Reached(p, r)) && (r in t <==> Reached(q, r)))
             || (forall r ::
                   (r in s <==> r == RootRef(p) || Reached(p, r)) && (r in t <==> r == RootRef(q) || Reached(q, r)))
    ensures s == t
  {
    forall r ensures r in s <==> r in t {
      if Reached(p, r) { SameReached(p, q, r); }
      if Reached(q, r) { SameReached(q, p, r); }
    }
    StrictListingIsUnique(s, t);
  }

  lemma SameComponent(p: Project, q: Project, a: Component, b: Component)
    requires WellFormed(p) && WellFormed(q) && SameGraph(p, q) && a.ref == b.ref
    requires IsComponentOf(p, a, a.ref) && IsComponentOf(q, b, b.ref)
    ensures a == b
  {
    PurlInjective(a.name, a.version, b.name, b.version);
    SameLinks(p, q, a.ref, a.ref);
    SameLinks(q, p, a.ref, a.ref);
  }

  lemma SameDependency(p: Project, q: Project, d: Dependency, e: Dependency)
    requires WellFormed(p) && WellFormed(q) && SameGraph(p, q) && d.ref == e.ref
    requires StrictlySorted(d.dependsOn) && forall to :: to in d.dependsOn <==> Link(p, d.ref, to)
    requires StrictlySorted(e.dependsOn) && forall to :: to in e.dependsOn <==> Link(q, e.ref, to)
    ensures d == e
  {
    forall to ensures to in d.dependsOn <==> to in e.dependsOn {
      SameLinks(p, q, d.ref, to);
      SameLinks(q, p, d.ref, to);
    }
    StrictListingIsUnique(d.dependsOn, e.dependsOn);
  }

  /** One graph, one document: however the children are ordered, and so wherever the visited markers
      cut the walk, the components, their scopes and the edges come out the same. */
  lemma BomIgnoresOrder(p: Project, q: Project, a: Bom, b: Bom)
    requires WellFormed(p) && WellFormed(q) && SameGraph(p, q) && IsBomOf(p, a) && IsBomOf(q, b)
    ensures a == b
  {
    SameListing(p, q, ComponentRefs(a.components), ComponentRefs(b.components));
    SameListing(p, q, DependencyRefs(a.dependencies), DependencyRefs(b.dependencies));
    forall i | 0 <= i < |a.components| ensures a.components[i] == b.components[i] {
      assert a.components[i].ref == ComponentRefs(a.components)[i] == b.components[i].ref;
      SameComponent(p, q, a.components[i], b.components[i]);
    }
    forall i | 0 <= i < |a.dependencies| ensures a.dependencies[i] == b.dependencies[i] {
      assert a.dependencies[i].ref == DependencyRefs(a.dependencies)[i] == b.dependencies[i].ref;
      SameDependency(p, q, a.dependencies[i], b.dependencies[i]);
    }
    assert a.components == b.components && a.dependencies == b.dependencies;
  }

  // ---------------------------------------------------------------------------------------------
  // The document over the dependency groups of the package objects

  /** The object's own list of a group. */
  function GroupOf(node: Node, group: Group): seq<Entry> {
    match group
    case Dependencies => node.dependencies
    case OptionalDependencies => node.optional
    case DevDependencies => node.dev
  }

  lemma InGroupIff(entries: seq<Entry>, group: Group, c: Child)
    ensures c in InGroup(entries, group) <==> c.group == group && Entry(c.name, c.node) in entries
  {
    if c.group == group && Entry(c.name, c.node) in entries {
      var i :| 0 <= i < |entries| && entries[i] == Entry(c.name, c.node);
      assert InGroup(entries, group)[i] == c;
    }
  }

  /** The children of an object are the entries of its three groups. */
  lemma ItemsIff(p: Project, n: NodeId, c: Child)
    requires n in p.nodes
    ensures c in Items(p, n) <==> Entry(c.name, c.node) in GroupOf(p.nodes[n], c.group)
  {
    InGroupIff(p.nodes[n].dependencies, Dependencies, c);
    InGroupIff(p.nodes[n].optional, OptionalDependencies, c);
    InGroupIff(p.nodes[n].dev, DevDependencies, c);
  }

  /** The object is the root, or reached under the reference. */
  ghost predicate KnownAs(p: Project, n: NodeId, ref: string)
    requires WellFormed(p)
  {
    n in p.nodes && ((n == p.root && ref == RootRef(p)) || Reachable(p, Marker(ref, n)))
  }

  ghost predicate DependsOn(bom: Bom, from: string, to: string) {
    exists d | d in bom.dependencies :: d.ref == from && to in d.dependsOn
  }

  lemma EdgeIff(p: Project, from: string, c: Child)
    requires WellFormed(p)
    ensures Edge(p, from, c) <==>
            exists n :: KnownAs(p, n, from) && Entry(c.name, c.node) in GroupOf(p.nodes[n], c.group)
  {
    if Edge(p, from, c) {
      if from == RootRef(p) && c in Items(p, p.root) {
        ItemsIff(p, p.root, c);
        assert KnownAs(p, p.root, from);
      } else {
        var m: Marker :| m.ref == from && m.node in p.nodes && c in Items(p, m.node) && Reachable(p, m);
        ItemsIff(p, m.node, c);
        assert KnownAs(p, m.node, from);
      }
    }
    if exists n :: KnownAs(p, n, from) && Entry(c.name, c.node) in GroupOf(p.nodes[n], c.group) {
      var n :| KnownAs(p, n, from) && Entry(c.name, c.node) in GroupOf(p.nodes[n], c.group);
      ItemsIff(p, n, c);
      if Reachable(p, Marker(from, n)) {
        ChildEdge(p, Marker(from, n), c);
      }
    }
  }

  /** Every entry of every group of the root and of each reached object is a component and a dependency of its
      parent, by its package URL, and required if it is in the group `dependencies`. */
  lemma EntryIsListed(p: Project, bom: Bom, n: NodeId, from: string, group: Group, entry: Entry)
    requires WellFormed(p) && IsBomOf(p, bom) && KnownAs(p, n, from) && entry in GroupOf(p.nodes[n], group)
    ensures entry.node in p.nodes
    ensures var url := PackagePurl(entry.name, p.nodes[entry.node].version);
            && url in ComponentRefs(bom.components) && DependsOn(bom, from, url)
            && (group == Dependencies ==> forall c | c in bom.components && c.ref == url :: c.required)
  {
    var c := Child(entry.name, entry.node, group);
    EdgeIff(p, from, c);
    EdgeReaches(p, from, c);
    assert Reached(p, Ref(p, c)) && Link(p, from, Ref(p, c));
    assert group == Dependencies ==> RequiredRef(p, Ref(p, c));
    assert from == RootRef(p) || Reached(p, from);
    var refs := DependencyRefs(bom.dependencies);
    assert from in refs;
    var i :| 0 <= i < |refs| && refs[i] == from;
    assert bom.dependencies[i].ref == from && bom.dependencies[i] in bom.dependencies;
  }

  /** And every dependency listed comes from an entry of some group of an object known as its parent. */
  lemma ListedIsEntry(p: Project, bom: Bom, from: string, to: string)
    requires WellFormed(p) && IsBomOf(p, bom) && DependsOn(bom, from, to)
    ensures exists n, group, entry ::
              && KnownAs(p, n, from) && entry in GroupOf(p.nodes[n], group)
              && entry.node in p.nodes && to == PackagePurl(entry.name, p.nodes[entry.node].version)
  {
    var c: Child :| Edge(p, from, c) && c.node in p.nodes && Ref(p, c) == to;
    EdgeIff(p, from, c);
    var n :| KnownAs(p, n, from) && Entry(c.name, c.node) in GroupOf(p.nodes[n], c.group);
  }

  /** A component is required only because of an entry in a group `dependencies`. */
  lemma RequiredIsEntry(p: Project, bom: Bom, component: Component)
    requires WellFormed(p) && IsBomOf(p, bom) && component in bom.components && component.required
    ensures exists n, from, entry ::
              && KnownAs(p, n, from) && entry in p.nodes[n].dependencies
              && entry.node in p.nodes && component.ref == PackagePurl(entry.name, p.nodes[entry.node].version)
  {
    var from: string, c: Child :|
      Edge(p, from, c) && c.node in p.nodes && Ref(p, c) == component.ref && c.group == Dependencies;
    EdgeIff(p, from, c);
    var n :| KnownAs(p, n, from) && Entry(c.name, c.node) in GroupOf(p.nodes[n], c.group);
    assert Entry(c.name, c.node) in p.nodes[n].dependencies;
  }
}
