/** Co-change clusters: connected components of the strong pairs, found with union-find and
    reported with density and centroid. */
module Clusters {
  import opened Common
  import opened Ordering
  import opened UnionFind
  import G = CoChangeGraph

  const MIN_COCHANGE_COUNT: nat := 5

  /** A co-change pair with its raw count, as the history miner lists it. */
  datatype Pair = Pair(a: string, b: string, count: nat)

  datatype Cluster = Cluster(members: seq<string>, cohesion: real, centroid: string, size: nat)

  datatype ClusterIndex = ClusterIndex(clusters: seq<Cluster>, total: nat, clusteredFiles: nat, isolatedFiles: nat)

  // ----- What a correct index is

  /** The pairs that count toward cluster formation. */
  function StrongEdges(pairs: seq<Pair>): set<G.Edge> {
    set p | p in pairs && p.count >= MIN_COCHANGE_COUNT :: (p.a, p.b)
  }

  function Endpoints(edges: set<G.Edge>): set<string> {
    (set e | e in edges :: e.0) + (set e | e in edges :: e.1)
  }

  /** Files with a strong pair to some other file. */
  ghost function Clustered(edges: set<G.Edge>): set<string> {
    set x | x in Endpoints(edges) && exists y :: y != x && G.Adjacent(edges, x, y)
  }

  /** Pairs that lie inside a member list. */
  function Intra(edges: set<G.Edge>, members: seq<string>): set<G.Edge> {
    G.Inside(edges, Elements(members))
  }

  /** `centroid` is the last member, in member order, of the highest degree. */
  ghost predicate IsCentroid(edges: set<G.Edge>, members: seq<string>, centroid: string) {
    exists k :: 0 <= k < |members| && members[k] == centroid
      && (forall j :: 0 <= j < |members| ==> G.Degree(edges, members[j]) <= G.Degree(edges, centroid))
      && (forall j :: k < j < |members| ==> G.Degree(edges, members[j]) < G.Degree(edges, centroid))
  }

  /** Pairs present over pairs possible among `n` files. */
  function Density(intra: nat, n: nat): real {
    var maxEdges := n * (n - 1) / 2;
    if maxEdges > 0 then intra as real / maxEdges as real else 0.0
  }

  ghost predicate IsCluster(edges: set<G.Edge>, c: Cluster) {
    && Distinct(c.members) && SortedBy(c.members, StringLe)
    && c.size == |c.members| >= 2
    && G.Component(edges, Elements(c.members))
    && c.cohesion == Density(|Intra(edges, c.members)|, c.size)
    && IsCentroid(Intra(edges, c.members), c.members, c.centroid)
  }

  /** No file is in two clusters. */
  ghost predicate Disjoint(clusters: seq<Cluster>) {
    && Distinct(clusters)
    && forall c, d :: c in clusters && d in clusters && c != d ==> Elements(c.members) !! Elements(d.members)
  }

  ghost function Members(clusters: seq<Cluster>): set<string> {
    set c, m | c in clusters && m in c.members :: m
  }

  ghost predicate IsIndex(edges: set<G.Edge>, totalFiles: nat, index: ClusterIndex) {
    && (forall c :: c in index.clusters ==> IsCluster(edges, c))
    && Disjoint(index.clusters)
    && Members(index.clusters) == Clustered(edges)
    && SortedBy(index.clusters, LargerFirst)
    && index.total == |index.clusters|
    && index.clusteredFiles == |Clustered(edges)|
    && index.isolatedFiles == if totalFiles < |Clustered(edges)| then 0 else totalFiles - |Clustered(edges)|
  }

  predicate LargerFirst(a: Cluster, b: Cluster) {
    a.size >= b.size
  }

  // ----- Union-find against connectivity

  /** Two numbered files share a representative exactly when a chain of pairs connects them. */
  ghost predicate Represents(edges: set<G.Edge>, names: seq<string>, p: seq<nat>, rk: seq<nat>) {
    && Ranked(p, rk) && |names| == |p|
    && forall i: nat, j: nat {:trigger Root(p, rk, i), Root(p, rk, j)} :: i < |p| && j < |p| ==>
      (Root(p, rk, i) == Root(p, rk, j) <==> G.Connected(edges, names[i], names[j]))
  }

  ghost predicate EndpointsNumbered(edges: set<G.Edge>, idx: map<string, nat>) {
    forall e :: e in edges ==> e.0 in idx && e.1 in idx
  }

  /** Representatives agree along a chain when they agree across every pair. */
  lemma {:induction false} ChainSharesRoot(edges: set<G.Edge>, names: seq<string>, idx: map<string, nat>,
                                           p: seq<nat>, rk: seq<nat>, path: seq<string>)
    requires Numbering(names, idx) && Ranked(p, rk) && |names| == |p| && EndpointsNumbered(edges, idx)
    requires forall e :: e in edges ==> Root(p, rk, idx[e.0]) == Root(p, rk, idx[e.1])
    requires G.Chain(edges, path) && path[0] in idx
    ensures path[|path| - 1] in idx
    ensures Root(p, rk, idx[path[0]]) == Root(p, rk, idx[path[|path| - 1]])
    decreases |path|
  {
    if |path| <= 1 {
    } else {
      assert G.LinkedAt(edges, path, 0);
      var rest := path[1..];
      forall i: nat | i + 1 < |rest| ensures G.LinkedAt(edges, rest, i) {
        assert G.LinkedAt(edges, path, i + 1);
      }
      ChainSharesRoot(edges, names, idx, p, rk, rest);
    }
  }

  /** Joining the two ends of one more pair keeps representatives equal to connectivity. */
  lemma JoinRepresents(edges: set<G.Edge>, names: seq<string>, idx: map<string, nat>,
                       p: seq<nat>, rk: seq<nat>, q: seq<nat>, rk': seq<nat>, e: G.Edge)
    requires Numbering(names, idx) && Represents(edges, names, p, rk)
    requires EndpointsNumbered(edges + {e}, idx)
    requires e.0 in idx && e.1 in idx && Joined(p, rk, q, rk', idx[e.0], idx[e.1])
    ensures Represents(edges + {e}, names, q, rk')
  {
    var more := edges + {e};
    forall f | f in more ensures Root(q, rk', idx[f.0]) == Root(q, rk', idx[f.1]) {
      if f in edges {
        G.ConnectedEdge(edges, f.0, f.1);
        assert Root(p, rk, idx[f.0]) == Root(p, rk, idx[f.1]);
      }
    }
    forall i: nat, j: nat | i < |p| && j < |p|
      ensures Root(q, rk', i) == Root(q, rk', j) <==> G.Connected(more, names[i], names[j])
    {
      if Root(q, rk', i) == Root(q, rk', j) {
        RootsImplyConnected(edges, names, idx, p, rk, q, rk', e, i, j);
      }
      if G.Connected(more, names[i], names[j]) {
        var path :| G.Chain(more, path) && path[0] == names[i] && path[|path| - 1] == names[j];
        ChainSharesRoot(more, names, idx, q, rk', path);
      }
    }
  }

  lemma RootsImplyConnected(edges: set<G.Edge>, names: seq<string>, idx: map<string, nat>,
                            p: seq<nat>, rk: seq<nat>, q: seq<nat>, rk': seq<nat>, e: G.Edge, i: nat, j: nat)
    requires Numbering(names, idx) && Represents(edges, names, p, rk)
    requires e.0 in idx && e.1 in idx && Joined(p, rk, q, rk', idx[e.0], idx[e.1])
    requires i < |p| && j < |p| && Root(q, rk', i) == Root(q, rk', j)
    ensures G.Connected(edges + {e}, names[i], names[j])
  {
    var more := edges + {e};
    var x, y := names[i], names[j];
    var a, b := idx[e.0], idx[e.1];
    G.ConnectedEdge(more, e.0, e.1);
    G.ConnectedEdge(more, e.1, e.0);
    if Root(p, rk, i) == Root(p, rk, j) {
      G.ConnectedMono(edges, more, x, y);
    } else if Root(p, rk, i) == Root(p, rk, a) && Root(p, rk, j) == Root(p, rk, b) {
      G.ConnectedMono(edges, more, x, e.0);
      G.ConnectedMono(edges, more, e.1, y);
      G.ConnectedTrans(more, x, e.0, e.1);
      G.ConnectedTrans(more, x, e.1, y);
    } else {
      assert Root(p, rk, i) == Root(p, rk, b) && Root(p, rk, j) == Root(p, rk, a);
      G.ConnectedMono(edges, more, x, e.1);
      G.ConnectedMono(edges, more, e.0, y);
      G.ConnectedTrans(more, x, e.1, e.0);
      G.ConnectedTrans(more, x, e.0, y);
    }
  }

  /** Before any pair, every file stands alone. */
  lemma NothingConnected(names: seq<string>, idx: map<string, nat>, p: seq<nat>, rk: seq<nat>)
    requires Numbering(names, idx) && |p| == |rk| == |names|
    requires forall i :: 0 <= i < |p| ==> p[i] == i && rk[i] == 0
    ensures Represents({}, names, p, rk) && Balanced(p, rk)
  {
    forall i: nat, j: nat | i < |p| && j < |p|
      ensures Root(p, rk, i) == Root(p, rk, j) <==> G.Connected({}, names[i], names[j])
    {
      if i == j {
        G.ConnectedSelf({}, names[i]);
      } else if G.Connected({}, names[i], names[j]) {
        var path :| G.Chain({}, path) && path[0] == names[i] && path[|path| - 1] == names[j];
        ChainSharesRoot({}, names, idx, p, rk, path);
      }
    }
    forall r: nat | r < |p| ensures Pow2(rk[r]) <= |Tree(p, rk, r)| {
      assert Tree(p, rk, r) == {r};
    }
  }

  // ----- Building the index

  function EdgesOf(strong: seq<Pair>): set<G.Edge> {
    set p | p in strong :: (p.a, p.b)
  }

  function Strong(pairs: seq<Pair>): (r: seq<Pair>)
    ensures forall p :: p in r <==> p in pairs && p.count >= MIN_COCHANGE_COUNT
  {
    if pairs == [] then []
    else
      assert pairs == [pairs[0]] + pairs[1..];
      (if pairs[0].count >= MIN_COCHANGE_COUNT then [pairs[0]] else []) + Strong(pairs[1..])
  }

  /** Number every endpoint, in whatever order the set yields them. */
  method NumberNodes(strong: seq<Pair>) returns (names: seq<string>, idx: map<string, nat>)
    ensures Numbering(names, idx)
    ensures idx.Keys == Endpoints(EdgesOf(strong))
  {
    var nodes: set<string> := {};
    for k := 0 to |strong|
      invariant nodes == Endpoints(EdgesOf(strong[..k]))
    {
      assert strong[..k + 1] == strong[..k] + [strong[k]];
      assert EdgesOf(strong[..k + 1]) == EdgesOf(strong[..k]) + {(strong[k].a, strong[k].b)};
      nodes := nodes + {strong[k].a, strong[k].b};
    }
    assert strong[..|strong|] == strong;
    names, idx := [], map[];
    var rest := nodes;
    while rest != {}
      invariant Numbering(names, idx) && rest <= nodes && idx.Keys == nodes - rest
    {
      var n :| n in rest;
      idx := idx[n := |names|];
      names := names + [n];
      rest := rest - {n};
    }
  }

  /** Run union over every strong pair. */
  method Unite(strong: seq<Pair>, names: seq<string>, idx: map<string, nat>)
    returns (parent: array<nat>, rank: array<nat>)
    requires Numbering(names, idx) && EndpointsNumbered(EdgesOf(strong), idx)
    ensures fresh(parent) && fresh(rank) && parent != rank
    ensures Balanced(parent[..], rank[..])
    ensures Represents(EdgesOf(strong), names, parent[..], rank[..])
  {
    parent := new nat[|names|](i => i);
    rank := new nat[|names|](_ => 0);
    NothingConnected(names, idx, parent[..], rank[..]);
    assert EdgesOf(strong[..0]) == {};
    for k := 0 to |strong|
      invariant fresh(parent) && fresh(rank) && parent != rank
      invariant Balanced(parent[..], rank[..])
      invariant Represents(EdgesOf(strong[..k]), names, parent[..], rank[..])
    {
      var e := (strong[k].a, strong[k].b);
      assert strong[..k + 1] == strong[..k] + [strong[k]];
      assert EdgesOf(strong[..k + 1]) == EdgesOf(strong[..k]) + {e};
      assert e in EdgesOf(strong) && EdgesOf(strong[..k + 1]) <= EdgesOf(strong);
      ghost var p, rk := parent[..], rank[..];
      Union(parent, rank, idx[e.0], idx[e.1]);
      JoinRepresents(EdgesOf(strong[..k]), names, idx, p, rk, parent[..], rank[..], e);
    }
    assert strong[..|strong|] == strong;
  }

  ghost function RootsOf(p: seq<nat>, rk: seq<nat>): (roots: seq<nat>)
    requires Ranked(p, rk)
    ensures |roots| == |p| && forall i: nat :: i < |p| ==> roots[i] == Root(p, rk, i)
  {
    seq(|p|, i requires 0 <= i < |p| => Root(p, rk, i))
  }

  /** The names whose representative is `r`, in numbering order. */
  ghost function NamesOf(names: seq<string>, roots: seq<nat>, r: nat): seq<string>
    requires |names| == |roots|
  {
    if names == [] then []
    else
      var n := |names| - 1;
      NamesOf(names[..n], roots[..n], r) + if roots[n] == r then [names[n]] else []
  }

  lemma {:induction false} NamesOfHolds(names: seq<string>, roots: seq<nat>, r: nat)
    requires |names| == |roots| && Distinct(names)
    ensures Distinct(NamesOf(names, roots, r))
    ensures forall x :: x in NamesOf(names, roots, r) <==>
      exists i :: 0 <= i < |names| && names[i] == x && roots[i] == r
  {
    if names == [] {
    } else {
      var n := |names| - 1;
      NamesOfHolds(names[..n], roots[..n], r);
      var before := NamesOf(names[..n], roots[..n], r);
      assert names[n] !in before;
      forall x
        ensures x in NamesOf(names, roots, r) <==> exists i :: 0 <= i < |names| && names[i] == x && roots[i] == r
      {
        if i :| 0 <= i < |names| && names[i] == x && roots[i] == r {
          if i < n {
            assert names[..n][i] == x && roots[..n][i] == r;
          }
        }
        if x in before {
          var i :| 0 <= i < n && names[..n][i] == x && roots[..n][i] == r;
          assert names[i] == x && roots[i] == r;
        }
      }
    }
  }

  /** `components` maps each representative in use to its names. */
  ghost predicate Grouped(names: seq<string>, roots: seq<nat>, components: map<nat, seq<string>>) {
    && |names| == |roots|
    && (forall r: nat :: r in components <==> r in roots)
    && (forall r: nat :: r in components ==> components[r] == NamesOf(names, roots, r))
  }

  lemma {:induction false} NamesOfAbsent(names: seq<string>, roots: seq<nat>, r: nat)
    requires |names| == |roots| && r !in roots
    ensures NamesOf(names, roots, r) == []
  {
    if names == [] {
    } else {
      NamesOfAbsent(names[..|names| - 1], roots[..|names| - 1], r);
    }
  }

  lemma GroupStep(names: seq<string>, roots: seq<nat>, components: map<nat, seq<string>>, name: string, root: nat)
    requires Grouped(names, roots, components)
    ensures Grouped(names + [name], roots + [root],
                    components[root := (if root in components then components[root] else []) + [name]])
  {
    assert (names + [name])[..|names|] == names && (roots + [root])[..|names|] == roots;
    if root !in components {
      NamesOfAbsent(names, roots, root);
    }
  }

  lemma GroupNext(names: seq<string>, roots: seq<nat>, i: nat, components: map<nat, seq<string>>)
    requires |names| == |roots| && i < |names| && Grouped(names[..i], roots[..i], components)
    ensures Grouped(names[..i + 1], roots[..i + 1],
                    components[roots[i] := (if roots[i] in components then components[roots[i]] else []) + [names[i]]])
  {
    GroupStep(names[..i], roots[..i], components, names[i], roots[i]);
    assert names[..i + 1] == names[..i] + [names[i]] && roots[..i + 1] == roots[..i] + [roots[i]];
  }

  method RootAt(parent: array<nat>, x: nat, ghost rk: seq<nat>, ghost roots: seq<nat>) returns (root: nat)
    requires Balanced(parent[..], rk) && RootsOf(parent[..], rk) == roots && x < parent.Length
    modifies parent
    ensures Balanced(parent[..], rk) && RootsOf(parent[..], rk) == roots && root == roots[x]
  {
    var r, _ := Find(parent, x, rk);
    root := r;
    forall y: nat | y < |roots| ensures Root(parent[..], rk, y) == roots[y] {
    }
    assert RootsOf(parent[..], rk) == roots;
  }

  /** Collect the names of each representative. */
  method Group(names: seq<string>, parent: array<nat>, ghost rk: seq<nat>) returns (components: map<nat, seq<string>>)
    requires Balanced(parent[..], rk) && |names| == parent.Length
    modifies parent
    ensures Balanced(parent[..], rk)
    ensures Grouped(names, old(RootsOf(parent[..], rk)), components)
  {
    ghost var roots := RootsOf(parent[..], rk);
    components := map[];
    for i := 0 to |names|
      invariant Balanced(parent[..], rk) && RootsOf(parent[..], rk) == roots
      invariant Grouped(names[..i], roots[..i], components)
    {
      var root := RootAt(parent, i, rk, roots);
      GroupNext(names, roots, i, components);
      var group := if root in components then components[root] else [];
      components := components[root := group + [names[i]]];
    }
    assert names[..|names|] == names && roots[..|names|] == roots;
  }

  // ----- Density and centroid of one component

  lemma AddLeaving(edges: set<G.Edge>, e: G.Edge, m: string)
    requires e !in edges
    ensures |G.Leaving(edges + {e}, m)| == |G.Leaving(edges, m)| + if e.0 == m then 1 else 0
  {
    if e.0 == m {
      assert G.Leaving(edges + {e}, m) == G.Leaving(edges, m) + {e};
    } else {
      assert G.Leaving(edges + {e}, m) == G.Leaving(edges, m);
    }
  }

  lemma AddEntering(edges: set<G.Edge>, e: G.Edge, m: string)
    requires e !in edges
    ensures |G.Entering(edges + {e}, m)| == |G.Entering(edges, m)| + if e.1 == m then 1 else 0
  {
    if e.1 == m {
      assert G.Entering(edges + {e}, m) == G.Entering(edges, m) + {e};
    } else {
      assert G.Entering(edges + {e}, m) == G.Entering(edges, m);
    }
  }

  lemma AddEdge(edges: set<G.Edge>, e: G.Edge, m: string)
    requires e !in edges
    ensures G.Degree(edges + {e}, m) ==
      G.Degree(edges, m) + (if e.0 == m then 1 else 0) + (if e.1 == m then 1 else 0)
  {
    AddLeaving(edges, e, m);
    AddEntering(edges, e, m);
  }

  /** The counters hold the number of `inside` and its degrees. */
  ghost predicate DegreesOf(inside: set<G.Edge>, intra: nat, degree: map<string, nat>) {
    intra == |inside| && forall m :: Get(degree, m) == G.Degree(inside, m)
  }

  function Bump(degree: map<string, nat>, m: string): map<string, nat> {
    degree[m := Get(degree, m) + 1]
  }

  lemma DegreesStep(inside: set<G.Edge>, intra: nat, degree: map<string, nat>, e: G.Edge)
    requires DegreesOf(inside, intra, degree) && e !in inside
    ensures DegreesOf(inside + {e}, intra + 1, Bump(Bump(degree, e.0), e.1))
  {
    forall m ensures Get(Bump(Bump(degree, e.0), e.1), m) == G.Degree(inside + {e}, m) {
      AddEdge(inside, e, m);
    }
  }

  lemma InsideMore(edges: set<G.Edge>, rest: set<G.Edge>, e: G.Edge, members: set<string>)
    requires rest <= edges && e in rest
    ensures e !in G.Inside(edges - rest, members)
    ensures G.Inside(edges - (rest - {e}), members) ==
      G.Inside(edges - rest, members) + if e.0 in members && e.1 in members then {e} else {}
  {
    assert edges - (rest - {e}) == (edges - rest) + {e};
  }

  /** Count the pairs inside a component and the pair ends at each member. */
  method CountEdges(edges: set<G.Edge>, members: set<string>) returns (intra: nat, degree: map<string, nat>)
    ensures intra == |G.Inside(edges, members)|
    ensures forall m :: Get(degree, m) == G.Degree(G.Inside(edges, members), m)
  {
    intra, degree := 0, map[];
    var rest := edges;
    assert G.Inside(edges - rest, members) == {};
    while rest != {}
      invariant rest <= edges
      invariant DegreesOf(G.Inside(edges - rest, members), intra, degree)
    {
      var e :| e in rest;
      InsideMore(edges, rest, e, members);
      if e.0 in members && e.1 in members {
        DegreesStep(G.Inside(edges - rest, members), intra, degree, e);
        intra := intra + 1;
        degree := Bump(degree, e.0);
        degree := Bump(degree, e.1);
      }
      rest := rest - {e};
    }
    assert edges - {} == edges;
  }

  /** The member of highest degree; among equals the last one wins. */
  method PickCentroid(ghost edges: set<G.Edge>, members: seq<string>, degree: map<string, nat>)
    returns (centroid: string)
    requires members != [] && forall m :: Get(degree, m) == G.Degree(edges, m)
    ensures IsCentroid(edges, members, centroid)
  {
    var best := 0;
    for i := 1 to |members|
      invariant best < i
      invariant forall j :: 0 <= j < i ==> G.Degree(edges, members[j]) <= G.Degree(edges, members[best])
      invariant forall j :: best < j < i ==> G.Degree(edges, members[j]) < G.Degree(edges, members[best])
    {
      if Get(degree, members[i]) >= Get(degree, members[best]) {
        best := i;
      }
    }
    centroid := members[best];
  }

  lemma SortedMembers(group: seq<string>)
    requires Distinct(group)
    ensures var members := Sort(group, StringLe);
      Distinct(members) && SortedBy(members, StringLe) && Elements(members) == Elements(group) && |members| == |group|
  {
    var members := Sort(group, StringLe);
    StringOrder();
    SortSorts(group, StringLe);
    SameElements(members, group);
    DistinctRearranged(group, members);
  }

  method BuildCluster(group: seq<string>, edges: set<G.Edge>) returns (c: Cluster)
    requires Distinct(group) && |group| >= 2 && G.Component(edges, Elements(group))
    ensures IsCluster(edges, c) && Elements(c.members) == Elements(group)
  {
    var members := Sort(group, StringLe);
    SortedMembers(group);
    var n := |members|;
    var intra, degree := CountEdges(edges, Elements(members));
    var centroid := PickCentroid(Intra(edges, members), members, degree);
    c := Cluster(members, Density(intra, n), centroid, n);
  }

  // ----- Assembling the index

  /** The groups are the components of the pairs and cover exactly their endpoints. */
  ghost predicate Partition(edges: set<G.Edge>, components: map<nat, seq<string>>) {
    && (forall r :: r in components ==> Distinct(components[r]) && G.Component(edges, Elements(components[r])))
    && (forall r, s :: r in components && s in components && r != s ==>
         Elements(components[r]) !! Elements(components[s]))
    && (forall x :: x in Endpoints(edges) <==> exists r :: r in components && x in components[r])
  }

  lemma GroupIsComponent(edges: set<G.Edge>, names: seq<string>, idx: map<string, nat>,
                         p: seq<nat>, rk: seq<nat>, r: nat)
    requires Numbering(names, idx) && Represents(edges, names, p, rk) && EndpointsNumbered(edges, idx)
    ensures Distinct(NamesOf(names, RootsOf(p, rk), r))
    ensures G.Component(edges, Elements(NamesOf(names, RootsOf(p, rk), r)))
  {
    var roots := RootsOf(p, rk);
    var group := NamesOf(names, roots, r);
    NamesOfHolds(names, roots, r);
    assert forall x :: x in group <==> x in idx && roots[idx[x]] == r;
    forall e | e in edges ensures e.0 in group <==> e.1 in group {
      G.ConnectedEdge(edges, e.0, e.1);
      assert Root(p, rk, idx[e.0]) == Root(p, rk, idx[e.1]);
    }
    forall x, y | x in group && y in group ensures G.Connected(edges, x, y) {
      assert Root(p, rk, idx[x]) == Root(p, rk, idx[y]);
    }
  }

  lemma GroupsPartition(edges: set<G.Edge>, names: seq<string>, idx: map<string, nat>,
                        p: seq<nat>, rk: seq<nat>, components: map<nat, seq<string>>)
    requires Numbering(names, idx) && Represents(edges, names, p, rk) && idx.Keys == Endpoints(edges)
    requires Grouped(names, RootsOf(p, rk), components)
    ensures Partition(edges, components)
  {
    var roots := RootsOf(p, rk);
    assert EndpointsNumbered(edges, idx);
    forall r | r in components
      ensures Distinct(components[r]) && G.Component(edges, Elements(components[r]))
      ensures forall x :: x in components[r] <==> x in idx && roots[idx[x]] == r
    {
      GroupIsComponent(edges, names, idx, p, rk, r);
      NamesOfHolds(names, roots, r);
    }
    forall x ensures x in Endpoints(edges) <==> exists r :: r in components && x in components[r] {
      if x in idx {
        assert roots[idx[x]] in components;
      }
    }
  }

  ghost predicate SomeCluster(clusters: seq<Cluster>, members: set<string>) {
    exists c :: c in clusters && Elements(c.members) == members
  }

  ghost predicate SomeGroup(components: map<nat, seq<string>>, done: set<nat>, members: set<string>) {
    exists r :: r in done && r in components && members == Elements(components[r])
  }

  /** The clusters built so far are the large components among `done`. */
  ghost predicate BuiltFrom(edges: set<G.Edge>, components: map<nat, seq<string>>, done: set<nat>,
                            clusters: seq<Cluster>) {
    && (forall c :: c in clusters ==> IsCluster(edges, c))
    && Disjoint(clusters)
    && (forall c :: c in clusters ==> SomeGroup(components, done, Elements(c.members)))
    && (forall r :: r in done && r in components && |components[r]| >= 2 ==>
         SomeCluster(clusters, Elements(components[r])))
  }

  lemma AppendDisjoint(clusters: seq<Cluster>, c: Cluster)
    requires Disjoint(clusters) && c.members != []
    requires forall d :: d in clusters ==> Elements(d.members) !! Elements(c.members)
    ensures Disjoint(clusters + [c])
  {
    assert c.members[0] in Elements(c.members);
    assert c !in clusters;
  }

  lemma BuildStep(edges: set<G.Edge>, components: map<nat, seq<string>>, done: set<nat>, clusters: seq<Cluster>,
                  r: nat, c: Cluster)
    requires Partition(edges, components) && BuiltFrom(edges, components, done, clusters)
    requires r in components && r !in done
    requires IsCluster(edges, c) && Elements(c.members) == Elements(components[r])
    ensures BuiltFrom(edges, components, done + {r}, clusters + [c])
  {
    var more := clusters + [c];
    forall d | d in clusters
      ensures Elements(d.members) !! Elements(c.members) && SomeGroup(components, done + {r}, Elements(d.members))
    {
      assert SomeGroup(components, done, Elements(d.members));
      var s :| s in done && s in components && Elements(d.members) == Elements(components[s]);
      assert s != r && s in done + {r};
    }
    AppendDisjoint(clusters, c);
    assert r in done + {r} && c in more;
    forall s | s in done + {r} && s in components && |components[s]| >= 2
      ensures SomeCluster(more, Elements(components[s]))
    {
      if s != r {
        assert SomeCluster(clusters, Elements(components[s]));
        var d :| d in clusters && Elements(d.members) == Elements(components[s]);
        assert d in more;
      }
    }
  }

  lemma DistinctAtLeastTwo(s: seq<string>, x: string, y: string)
    requires x in s && y in s && x != y
    ensures |s| >= 2
  {
  }

  lemma ClusteredIsMember(edges: set<G.Edge>, components: map<nat, seq<string>>, clusters: seq<Cluster>, x: string)
    requires Partition(edges, components) && BuiltFrom(edges, components, components.Keys, clusters)
    requires x in Clustered(edges)
    ensures x in Members(clusters)
  {
    var y :| y != x && G.Adjacent(edges, x, y);
    var r :| r in components && x in components[r];
    assert G.Component(edges, Elements(components[r]));
    assert y in Elements(components[r]);
    DistinctAtLeastTwo(components[r], x, y);
    assert SomeCluster(clusters, Elements(components[r]));
    var c :| c in clusters && Elements(c.members) == Elements(components[r]);
    assert x in Elements(c.members);
  }

  lemma MemberIsClustered(edges: set<G.Edge>, components: map<nat, seq<string>>, clusters: seq<Cluster>, c: Cluster,
                          x: string)
    requires Partition(edges, components) && BuiltFrom(edges, components, components.Keys, clusters)
    requires c in clusters && x in c.members
    ensures x in Clustered(edges)
  {
    var y := if c.members[0] == x then c.members[1] else c.members[0];
    assert y in Elements(c.members) && y != x;
    assert G.Connected(edges, x, y);
    var path :| G.Chain(edges, path) && path[0] == x && path[|path| - 1] == y;
    var i := G.CrossingStep(edges, path, {x});
    assert G.Adjacent(edges, x, path[i + 1]);
    assert x in Endpoints(edges);
  }

  lemma ClustersCover(edges: set<G.Edge>, components: map<nat, seq<string>>, clusters: seq<Cluster>)
    requires Partition(edges, components) && BuiltFrom(edges, components, components.Keys, clusters)
    ensures Members(clusters) == Clustered(edges)
  {
    forall x | x in Clustered(edges) ensures x in Members(clusters) {
      ClusteredIsMember(edges, components, clusters, x);
    }
    forall c, x | c in clusters && x in c.members ensures x in Clustered(edges) {
      MemberIsClustered(edges, components, clusters, c, x);
    }
  }

  function TotalSize(clusters: seq<Cluster>): nat {
    if clusters == [] then 0 else clusters[0].size + TotalSize(clusters[1..])
  }

  lemma MembersSplit(c: Cluster, rest: seq<Cluster>)
    ensures Members([c] + rest) == Elements(c.members) + Members(rest)
  {
    assert c in [c] + rest;
    forall d | d in rest ensures d in [c] + rest {
    }
  }

  lemma {:induction false} TotalSizeCounts(clusters: seq<Cluster>)
    requires Disjoint(clusters)
    requires forall c :: c in clusters ==> Distinct(c.members) && c.size == |c.members|
    ensures TotalSize(clusters) == |Members(clusters)|
  {
    if clusters == [] {
      assert Members(clusters) == {};
    } else {
      var c, rest := clusters[0], clusters[1..];
      assert clusters == [c] + rest && c !in rest;
      assert Disjoint(rest);
      TotalSizeCounts(rest);
      DistinctSize(c.members);
      MembersSplit(c, rest);
      assert Elements(c.members) !! Members(rest);
    }
  }

  lemma SortClusters(edges: set<G.Edge>, clusters: seq<Cluster>)
    requires (forall c :: c in clusters ==> IsCluster(edges, c)) && Disjoint(clusters)
    ensures var sorted := Sort(clusters, LargerFirst);
      && (forall c :: c in sorted ==> IsCluster(edges, c)) && Disjoint(sorted)
      && SortedBy(sorted, LargerFirst) && Members(sorted) == Members(clusters)
      && TotalSize(sorted) == |Members(clusters)|
  {
    var sorted := Sort(clusters, LargerFirst);
    SortSorts(clusters, LargerFirst);
    SameElements(sorted, clusters);
    DistinctRearranged(clusters, sorted);
    TotalSizeCounts(sorted);
  }

  /** Build the clusters of every component with at least two files. */
  method BuildAll(components: map<nat, seq<string>>, edges: set<G.Edge>) returns (clusters: seq<Cluster>)
    requires Partition(edges, components)
    ensures BuiltFrom(edges, components, components.Keys, clusters)
  {
    clusters := [];
    var rest := components.Keys;
    while rest != {}
      invariant rest <= components.Keys
      invariant BuiltFrom(edges, components, components.Keys - rest, clusters)
    {
      var r :| r in rest;
      ghost var done := components.Keys - rest;
      assert components.Keys - (rest - {r}) == done + {r};
      if |components[r]| >= 2 {
        var c := BuildCluster(components[r], edges);
        BuildStep(edges, components, done, clusters, r, c);
        clusters := clusters + [c];
      }
      rest := rest - {r};
    }
    assert components.Keys - {} == components.Keys;
  }

  /** The cluster index: exactly the components of at least two files over the strong pairs,
      largest first, each with its density and centroid, and the file counts. */
  method Compute(pairs: seq<Pair>, totalFiles: nat) returns (index: ClusterIndex)
    ensures IsIndex(StrongEdges(pairs), totalFiles, index)
  {
    var strong := Strong(pairs);
    ghost var edges := StrongEdges(pairs);
    assert EdgesOf(strong) == edges;
    if strong == [] {
      assert edges == {} && Clustered(edges) == {};
      assert Members([]) == {};
      return ClusterIndex([], 0, 0, totalFiles);
    }
    var names, idx := NumberNodes(strong);
    var parent, rank := Unite(strong, names, idx);
    ghost var p, rk := parent[..], rank[..];
    var components := Group(names, parent, rk);
    GroupsPartition(edges, names, idx, p, rk, components);
    var clusters := BuildAll(components, EdgesOf(strong));
    ClustersCover(edges, components, clusters);
    SortClusters(edges, clusters);
    clusters := Sort(clusters, LargerFirst);
    var clusteredFiles := TotalSize(clusters);
    var isolated := if totalFiles < clusteredFiles then 0 else totalFiles - clusteredFiles;
    index := ClusterIndex(clusters, |clusters|, clusteredFiles, isolated);
  }
}
