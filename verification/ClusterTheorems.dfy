/** What the cluster index promises its readers, for every list of pairs. */
module ClusterTheorems {
  import opened Common
  import opened Ordering
  import opened Clusters
  import G = CoChangeGraph

  /** A chain of pairs never leaves a component. */
  lemma StaysInside(edges: set<G.Edge>, nodes: set<string>, x: string, y: string)
    requires G.Component(edges, nodes) && x in nodes && G.Connected(edges, x, y)
    ensures y in nodes
  {
    var path :| G.Chain(edges, path) && path[0] == x && path[|path| - 1] == y;
    if y !in nodes {
      var i := G.CrossingStep(edges, path, nodes);
      assert false;
    }
  }

  ghost predicate ShareCluster(index: ClusterIndex, x: string, y: string) {
    exists c :: c in index.clusters && x in c.members && y in c.members
  }

  /** Two files with strong pairs share a cluster exactly when a chain of strong pairs connects them. */
  lemma ShareClusterIffConnected(edges: set<G.Edge>, totalFiles: nat, index: ClusterIndex, x: string, y: string)
    requires IsIndex(edges, totalFiles, index) && x in Clustered(edges)
    ensures ShareCluster(index, x, y) <==> G.Connected(edges, x, y)
  {
    if c :| c in index.clusters && x in c.members && y in c.members {
      assert x in Elements(c.members) && y in Elements(c.members);
    }
    if G.Connected(edges, x, y) {
      assert x in Members(index.clusters);
      var c :| c in index.clusters && x in c.members;
      StaysInside(edges, Elements(c.members), x, y);
      assert y in Elements(c.members);
    }
  }

  lemma ComponentsCoincide(edges: set<G.Edge>, a: set<string>, b: set<string>, x: string)
    requires G.Component(edges, a) && G.Component(edges, b) && x in a && x in b
    ensures a == b
  {
    forall y ensures y in a <==> y in b {
      if y in a {
        StaysInside(edges, b, x, y);
      }
      if y in b {
        StaysInside(edges, a, x, y);
      }
    }
  }

  lemma SortedMembersCoincide(a: seq<string>, b: seq<string>)
    requires Distinct(a) && Distinct(b) && Elements(a) == Elements(b)
    requires SortedBy(a, StringLe) && SortedBy(b, StringLe)
    ensures a == b
  {
    forall x ensures multiset(a)[x] == multiset(b)[x] {
      OccurrencesIsMultiplicity(a, x);
      OccurrencesIsMultiplicity(b, x);
      OccurrencesDistinct(a, x);
      OccurrencesDistinct(b, x);
      assert x in Elements(a) <==> x in Elements(b);
    }
    assert multiset(a) == multiset(b);
    StringOrder();
    SortedIsUnique(a, b, StringLe);
  }

  lemma CentroidCoincides(edges: set<G.Edge>, members: seq<string>, a: string, b: string)
    requires IsCentroid(edges, members, a) && IsCentroid(edges, members, b)
    ensures a == b
  {
  }

  lemma ClustersCoincide(edges: set<G.Edge>, c: Cluster, d: Cluster, x: string)
    requires IsCluster(edges, c) && IsCluster(edges, d) && x in c.members && x in d.members
    ensures c == d
  {
    assert x in Elements(c.members) && x in Elements(d.members);
    ComponentsCoincide(edges, Elements(c.members), Elements(d.members), x);
    SortedMembersCoincide(c.members, d.members);
    CentroidCoincides(Intra(edges, c.members), c.members, c.centroid, d.centroid);
  }

  lemma ClustersIncluded(edges: set<G.Edge>, m: nat, n: nat, a: ClusterIndex, b: ClusterIndex)
    requires IsIndex(edges, m, a) && IsIndex(edges, n, b)
    ensures Elements(a.clusters) <= Elements(b.clusters)
  {
    forall c | c in Elements(a.clusters) ensures c in Elements(b.clusters) {
      var x := c.members[0];
      assert x in c.members && x in Members(a.clusters) && x in Members(b.clusters);
      var d :| d in b.clusters && x in d.members;
      ClustersCoincide(edges, c, d, x);
    }
  }

  /** Node numbering and pair order do not matter: any two correct indexes over the same
      strong pairs hold the same clusters, with the same density and centroid. */
  lemma IndexIsCanonical(p: seq<Pair>, q: seq<Pair>, totalFiles: nat, a: ClusterIndex, b: ClusterIndex)
    requires StrongEdges(p) == StrongEdges(q)
    requires IsIndex(StrongEdges(p), totalFiles, a) && IsIndex(StrongEdges(q), totalFiles, b)
    ensures multiset(a.clusters) == multiset(b.clusters)
    ensures a.total == b.total && a.clusteredFiles == b.clusteredFiles && a.isolatedFiles == b.isolatedFiles
  {
    var edges := StrongEdges(p);
    ClustersIncluded(edges, totalFiles, totalFiles, a, b);
    ClustersIncluded(edges, totalFiles, totalFiles, b, a);
    forall c ensures multiset(a.clusters)[c] == multiset(b.clusters)[c] {
      OccurrencesIsMultiplicity(a.clusters, c);
      OccurrencesIsMultiplicity(b.clusters, c);
      OccurrencesDistinct(a.clusters, c);
      OccurrencesDistinct(b.clusters, c);
      assert c in Elements(a.clusters) <==> c in Elements(b.clusters);
    }
    assert multiset(a.clusters) == multiset(b.clusters);
    SameElements(a.clusters, b.clusters);
  }

  lemma CancelPositive(x: real, y: real, k: real)
    requires k > 0.0 && x * k <= y * k
    ensures x <= y
  {
  }

  lemma FractionLe(a: nat, b: nat, c: nat, d: nat)
    requires b > 0 && d > 0 && a * d <= c * b
    ensures a as real / b as real <= c as real / d as real
  {
    var x, y := a as real / b as real, c as real / d as real;
    var rb, rd := b as real, d as real;
    assert x * (rb * rd) == (x * rb) * rd == (a * d) as real;
    assert y * (rb * rd) == (y * rd) * rb == (c * b) as real;
    CancelPositive(x, y, rb * rd);
  }

  lemma DensityAtLeast(intra: nat, n: nat)
    requires n >= 2 && n <= intra + 1
    ensures 2.0 / n as real <= Density(intra, n)
  {
    var most := n * (n - 1) / 2;
    HalfProduct(n);
    assert n * (n - 1) <= n * intra;
    FractionLe(2, n, intra, most);
  }

  lemma DensityAtMostOne(intra: nat, n: nat)
    requires n >= 2
    ensures Density(intra, n) <= 1.0 <==> 2 * intra <= n * (n - 1)
  {
    var most := n * (n - 1) / 2;
    HalfProduct(n);
    var d := intra as real / most as real;
    assert d * most as real == intra as real;
    if d <= 1.0 {
      ScaleDown(d, most as real);
    }
    if intra <= most {
      FractionLe(intra, most, 1, 1);
    }
  }

  lemma ScaleDown(d: real, k: real)
    requires d <= 1.0 && k >= 0.0
    ensures d * k <= k
  {
  }

  lemma {:induction false} HalfProduct(n: nat)
    requires n >= 1
    ensures n * (n - 1) == 2 * (n * (n - 1) / 2)
    ensures n >= 2 ==> n * (n - 1) / 2 >= 1
  {
    if n <= 1 {
    } else {
      HalfProduct(n - 1);
      assert n * (n - 1) == (n - 1) * (n - 2) + 2 * (n - 1);
    }
  }

  /** A cluster of n files holds at least n - 1 pairs, its degrees add up to twice the number
      of pairs, and no member has a higher degree than the centroid. */
  lemma ClusterShape(edges: set<G.Edge>, c: Cluster)
    requires IsCluster(edges, c)
    ensures c.size - 1 <= |Intra(edges, c.members)|
    ensures G.DegreeSum(Intra(edges, c.members), c.members) == 2 * |Intra(edges, c.members)|
    ensures c.centroid in c.members
    ensures forall m :: m in c.members ==>
      G.Degree(Intra(edges, c.members), m) <= G.Degree(Intra(edges, c.members), c.centroid)
  {
    DistinctSize(c.members);
    G.SpanningEdges(edges, Elements(c.members));
    G.Handshake(Intra(edges, c.members), c.members);
    forall m | m in c.members
      ensures G.Degree(Intra(edges, c.members), m) <= G.Degree(Intra(edges, c.members), c.centroid)
    {
    }
  }

  /** A pair that is wasted: the second entry of two files listed both ways, or a file paired
      with itself. `Excess` counts the first kind once per entry and the second kind twice, so
      it is twice the number of wasted pairs. */
  function Excess(edges: set<G.Edge>, members: seq<string>): nat {
    |G.Mutual(Intra(edges, members))| + 2 * |G.Loops(Intra(edges, members))|
  }

  /** Twice the number of two-file choices among the members that have no pair. */
  ghost function Gaps(edges: set<G.Edge>, members: seq<string>): nat {
    |G.Strangers(Intra(edges, members), Elements(members))|
  }

  lemma DensityIff(edges: set<G.Edge>, members: seq<string>, n: nat)
    requires Distinct(members) && n == |members| >= 2
    ensures Density(|Intra(edges, members)|, n) <= 1.0 <==> Excess(edges, members) <= Gaps(edges, members)
  {
    DistinctSize(members);
    DensityAtMostOne(|Intra(edges, members)|, n);
    G.PairCount(Intra(edges, members), Elements(members));
  }

  /** For every cluster: its density is at least 2/n, and at most 1 exactly when no more pairs
      are wasted, on files listed both ways and on files paired with themselves, than there are
      two members without a pair. */
  lemma DensityAtMostOneIff(edges: set<G.Edge>, c: Cluster)
    requires IsCluster(edges, c)
    ensures 2.0 / c.size as real <= c.cohesion
    ensures c.cohesion <= 1.0 <==> Excess(edges, c.members) <= Gaps(edges, c.members)
  {
    ClusterShape(edges, c);
    DensityAtLeast(|Intra(edges, c.members)|, c.size);
    DensityIff(edges, c.members, c.size);
  }

  lemma NoExcess(edges: set<G.Edge>, members: seq<string>)
    requires G.OneOrientation(edges)
    ensures Excess(edges, members) == 0
  {
    forall e | e in Intra(edges, members) ensures e.0 != e.1 && G.Reverse(e) !in edges {
      assert (e.0, e.1) in edges;
    }
    assert G.Mutual(Intra(edges, members)) == {} && G.Loops(Intra(edges, members)) == {};
  }

  /** In particular the density lies in [2/n, 1] when every pair joins two different files and is
      listed in one direction. */
  lemma CohesionRange(edges: set<G.Edge>, c: Cluster)
    requires IsCluster(edges, c) && G.OneOrientation(edges)
    ensures 2.0 / c.size as real <= c.cohesion <= 1.0
  {
    DensityAtMostOneIff(edges, c);
    NoExcess(edges, c.members);
  }

  // ----- The index in plain numbers

  /** The strong pairs are those listed with a count of at least 5. */
  lemma StrongMeans(pairs: seq<Pair>, a: string, b: string)
    ensures (a, b) in StrongEdges(pairs) <==> exists n: nat :: n >= 5 && Pair(a, b, n) in pairs
  {
    if (a, b) in StrongEdges(pairs) {
      var p :| p in pairs && p.count >= MIN_COCHANGE_COUNT && (p.a, p.b) == (a, b);
      assert p == Pair(a, b, p.count);
    }
  }

  /** `d` is the share of `intra` in the pairs that n files can form. */
  predicate Shares(d: real, intra: nat, n: nat) {
    d * (n * (n - 1)) as real == 2.0 * intra as real
  }

  lemma DensityShares(intra: nat, n: nat)
    requires n >= 2
    ensures Shares(Density(intra, n), intra, n)
  {
    var most := n * (n - 1) / 2;
    HalfProduct(n);
    var d := intra as real / most as real;
    assert d * most as real == intra as real;
    assert (n * (n - 1)) as real == 2.0 * most as real;
    assert d * (2.0 * most as real) == 2.0 * (d * most as real);
  }

  lemma SharesSpelledOut(d: real, intra: nat, n: nat)
    requires Shares(d, intra, n)
    ensures d * (n * (n - 1)) as real == 2.0 * intra as real
  {
  }

  /** The strong pairs that lie inside a cluster. */
  function PairsInside(edges: set<G.Edge>, c: Cluster): set<G.Edge> {
    set e | e in edges && e.0 in c.members && e.1 in c.members
  }

  lemma PairsInsideAreIntra(edges: set<G.Edge>, c: Cluster)
    ensures PairsInside(edges, c) == Intra(edges, c.members)
  {
  }

  lemma DensityProduct(d: real, intra: nat, n: nat)
    requires n >= 2 && d == Density(intra, n)
    ensures d * (n * (n - 1)) as real == 2.0 * intra as real
  {
    DensityShares(intra, n);
  }

  lemma CohesionOf(edges: set<G.Edge>, c: Cluster, d: real, n: nat, intra: nat)
    requires IsCluster(edges, c) && d == c.cohesion && n == |c.members| && intra == |Intra(edges, c.members)|
    ensures d * (n * (n - 1)) as real == 2.0 * intra as real
  {
    assert n >= 2 && d == Density(intra, n);
    DensityProduct(d, intra, n);
  }

  /** For every cluster of a correct index, with density `d`, `n` files and `intra` strong pairs
      inside it: density times the number of ordered pairs of files is twice the pairs inside. */
  lemma CohesionMeans(edges: set<G.Edge>, totalFiles: nat, index: ClusterIndex, c: Cluster, d: real, n: nat, intra: nat)
    requires IsIndex(edges, totalFiles, index) && c in index.clusters
    requires d == c.cohesion && n == |c.members| && intra == |PairsInside(edges, c)|
    ensures d * (n * (n - 1)) as real == 2.0 * intra as real
  {
    PairsInsideAreIntra(edges, c);
    CohesionOf(edges, c, d, n, intra);
  }

  /** No cluster comes before a larger one. */
  lemma LargestFirst(edges: set<G.Edge>, totalFiles: nat, index: ClusterIndex, i: nat, j: nat)
    requires IsIndex(edges, totalFiles, index) && i < j < |index.clusters|
    ensures |index.clusters[i].members| >= |index.clusters[j].members|
  {
    assert LargerFirst(index.clusters[i], index.clusters[j]);
    assert index.clusters[i] in index.clusters && index.clusters[j] in index.clusters;
  }

  // ----- Densities above 1

  lemma ClusterOf(edges: set<G.Edge>, totalFiles: nat, index: ClusterIndex, x: string) returns (c: Cluster)
    requires IsIndex(edges, totalFiles, index) && x in Clustered(edges)
    ensures c in index.clusters && x in c.members && IsCluster(edges, c)
    ensures Elements(c.members) <= Endpoints(edges)
  {
    assert x in Members(index.clusters);
    c :| c in index.clusters && x in c.members;
    forall y | y in Elements(c.members) ensures y in Endpoints(edges) {
      assert y in Members(index.clusters) && y in Clustered(edges);
    }
  }

  lemma IntraAll(edges: set<G.Edge>, members: seq<string>, a: string, b: string)
    requires Endpoints(edges) == {a, b} && a != b && Elements(members) == {a, b} && Distinct(members)
    ensures Intra(edges, members) == edges && |members| == 2
  {
    DistinctSize(members);
    forall e | e in edges ensures e in Intra(edges, members) {
      assert e.0 in Endpoints(edges) && e.1 in Endpoints(edges);
    }
  }

  lemma DensityOfTwo(intra: nat)
    ensures Density(intra, 2) == intra as real
  {
  }

  /** A cluster over all pairs of two files has the number of distinct entries as its density. */
  lemma TwoFileDensity(edges: set<G.Edge>, c: Cluster, a: string, b: string)
    requires IsCluster(edges, c) && Endpoints(edges) == {a, b} && a != b && G.Adjacent(edges, a, b)
    requires a in c.members && Elements(c.members) <= {a, b}
    ensures c.cohesion == |edges| as real
  {
    G.ConnectedEdge(edges, a, b);
    assert a in Elements(c.members);
    StaysInside(edges, Elements(c.members), a, b);
    IntraAll(edges, c.members, a, b);
    DensityOfTwo(|edges|);
  }

  lemma TwoFileIndex(edges: set<G.Edge>, totalFiles: nat, index: ClusterIndex, a: string, b: string)
    returns (c: Cluster)
    requires IsIndex(edges, totalFiles, index) && Endpoints(edges) == {a, b} && a != b && G.Adjacent(edges, a, b)
    ensures c in index.clusters && c.cohesion == |edges| as real
  {
    assert a in Clustered(edges);
    c := ClusterOf(edges, totalFiles, index, a);
    TwoFileDensity(edges, c, a, b);
  }

  lemma StrongOfTwo(p: Pair, q: Pair)
    requires p.count >= MIN_COCHANGE_COUNT && q.count >= MIN_COCHANGE_COUNT
    ensures StrongEdges([p, q]) == {(p.a, p.b), (q.a, q.b)}
  {
    assert [p, q][0] in [p, q] && [p, q][1] in [p, q];
  }

  /** Two strong pairs over the files `a` and `b`, the first joining them, the second another
      entry over the same files, give a cluster of density 2: for `(b, a)` the pair is listed
      both ways, for `(a, a)` or `(b, b)` a file is paired with itself. */
  lemma DensityTwo(totalFiles: nat, index: ClusterIndex, a: string, b: string, q: Pair) returns (c: Cluster)
    requires a != b && q.count >= MIN_COCHANGE_COUNT && q.a in {a, b} && q.b in {a, b} && (q.a, q.b) != (a, b)
    requires IsIndex(StrongEdges([Pair(a, b, MIN_COCHANGE_COUNT), q]), totalFiles, index)
    ensures c in index.clusters && c.cohesion == 2.0
  {
    StrongOfTwo(Pair(a, b, MIN_COCHANGE_COUNT), q);
    EndpointsOfTwo(a, b, q.a, q.b);
    c := TwoFileIndex({(a, b), (q.a, q.b)}, totalFiles, index, a, b);
  }

  /** For example. */
  lemma DensityTwoExamples(totalFiles: nat, p: ClusterIndex, q: ClusterIndex) returns (c: Cluster, d: Cluster)
    requires IsIndex(StrongEdges([Pair("a", "b", 5), Pair("b", "a", 5)]), totalFiles, p)
    requires IsIndex(StrongEdges([Pair("a", "b", 5), Pair("a", "a", 5)]), totalFiles, q)
    ensures c in p.clusters && c.cohesion == 2.0
    ensures d in q.clusters && d.cohesion == 2.0
  {
    c := DensityTwo(totalFiles, p, "a", "b", Pair("b", "a", 5));
    d := DensityTwo(totalFiles, q, "a", "b", Pair("a", "a", 5));
  }

  lemma EndpointsOfTwo(a: string, b: string, x: string, y: string)
    requires x in {a, b} && y in {a, b}
    ensures Endpoints({(a, b), (x, y)}) == {a, b}
  {
    assert (a, b) in {(a, b), (x, y)};
  }

  /** The first cluster that lists the path. */
  function ClusterFor(clusters: seq<Cluster>, path: string): (r: Option<Cluster>)
    ensures r.Some? ==> r.value in clusters && path in r.value.members
    ensures r.None? ==> forall c :: c in clusters ==> path !in c.members
  {
    if clusters == [] then None
    else
      assert clusters == [clusters[0]] + clusters[1..];
      if path in clusters[0].members then Some(clusters[0]) else ClusterFor(clusters[1..], path)
  }

  /** Looking up a file finds its one cluster, and connected files find the same one. */
  lemma ClusterForFindsComponent(edges: set<G.Edge>, totalFiles: nat, index: ClusterIndex, x: string, y: string)
    requires IsIndex(edges, totalFiles, index)
    ensures ClusterFor(index.clusters, x).Some? <==> x in Clustered(edges)
    ensures x in Clustered(edges) ==>
      (ClusterFor(index.clusters, x) == ClusterFor(index.clusters, y) <==> G.Connected(edges, x, y))
  {
    assert x in Members(index.clusters) <==> x in Clustered(edges);
    if x in Clustered(edges) {
      var c := ClusterFor(index.clusters, x).value;
      if G.Connected(edges, x, y) {
        assert x in Elements(c.members);
        StaysInside(edges, Elements(c.members), x, y);
        assert y in Elements(c.members);
        ClustersCoincide(edges, c, ClusterFor(index.clusters, y).value, y);
      }
      if ClusterFor(index.clusters, y) == Some(c) {
        assert x in Elements(c.members) && y in Elements(c.members);
      }
    }
  }
}
