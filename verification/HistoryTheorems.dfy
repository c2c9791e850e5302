/** What the mined history promises its readers. */
module HistoryTheorems {
  import opened Common
  import opened Ordering
  import opened HistorySpec
  import HistoryTally
  import opened GitHistory
  import opened Clusters
  import G = CoChangeGraph
  import ClusterTheorems

  /** Provided no commit lists a file twice, a reported pair joins two different files, its
      count is the number of commits of 2 to 50 walked files that touch both, and it lies
      between 70% and 100% of the rarer file's frequency. */
  lemma PairsAreJointCommits(walked: set<string>, w: seq<Commit>, r: GitSignals, p: Pair)
    requires IsReport(walked, w, r) && NoDuplicates(walked, w) && p in r.coChangePairs
    ensures p.a != p.b
    ensures p.count == TouchingBoth(walked, w, p.a, p.b)
    ensures p.a in r.changeFrequency && p.b in r.changeFrequency
    ensures var fa, fb := r.changeFrequency[p.a], r.changeFrequency[p.b];
      var rarer := if fa < fb then fa else fb;
      7 * rarer <= 10 * p.count <= 10 * rarer
  {
    assert Listed(walked, w, p);
    PairFreqCountsCommits(walked, w, p.a, p.b);
  }

  lemma SameTwo(a: string, b: string, c: string, d: string)
    requires {a, b} == {c, d}
    ensures (a == c && b == d) || (a == d && b == c)
  {
    assert a in {c, d} && b in {c, d};
    assert c in {a, b} && d in {a, b};
  }

  lemma ListedOnePair(walked: set<string>, w: seq<Commit>, p: Pair, q: Pair)
    requires Listed(walked, w, p) && Listed(walked, w, q) && {p.a, p.b} == {q.a, q.b}
    ensures p == q
  {
    var names := FirstSeen(Flat(walked, w));
    var i, j :| 0 <= i <= j < |names| && names[i] == p.a && names[j] == p.b;
    var k, l :| 0 <= k <= l < |names| && names[k] == q.a && names[l] == q.b;
    SameTwo(p.a, p.b, q.a, q.b);
    SameDirection(names, i, j, k, l);
  }

  lemma SameDirection(names: seq<string>, i: nat, j: nat, k: nat, l: nat)
    requires Distinct(names) && i <= j < |names| && k <= l < |names|
    requires (names[i] == names[k] && names[j] == names[l]) || (names[i] == names[l] && names[j] == names[k])
    ensures names[i] == names[k] && names[j] == names[l]
  {
  }

  /** Two reported pairs over the same two files are one and the same. */
  lemma EachPairOnce(walked: set<string>, w: seq<Commit>, r: GitSignals, p: Pair, q: Pair)
    requires IsReport(walked, w, r) && p in r.coChangePairs && q in r.coChangePairs
    requires {p.a, p.b} == {q.a, q.b}
    ensures p == q
  {
    ListedOnePair(walked, w, p, q);
  }

  /** Mined pairs are never listed both ways, for any history: the density of a cluster computed
      from it is at most 1 exactly when no more of its files are paired with themselves than
      there are two of them without a pair. */
  lemma MinedDensity(walked: set<string>, w: seq<Commit>, r: GitSignals, totalFiles: nat, index: ClusterIndex,
                     c: Cluster)
    requires IsReport(walked, w, r)
    requires IsIndex(StrongEdges(r.coChangePairs), totalFiles, index) && c in index.clusters
    ensures var edges := StrongEdges(r.coChangePairs);
      && 2.0 / c.size as real <= c.cohesion
      && (c.cohesion <= 1.0 <==> 2 * |G.Loops(Intra(edges, c.members))| <= ClusterTheorems.Gaps(edges, c.members))
  {
    var edges := StrongEdges(r.coChangePairs);
    ClusterTheorems.DensityAtMostOneIff(edges, c);
    NeverMutual(walked, w, r);
    assert G.Mutual(Intra(edges, c.members)) <= G.Mutual(edges);
  }

  lemma PairOf(pairs: seq<Pair>, e: G.Edge) returns (p: Pair)
    requires e in StrongEdges(pairs)
    ensures p in pairs && p.a == e.0 && p.b == e.1
  {
    p :| p in pairs && p.a == e.0 && p.b == e.1;
  }

  lemma NotBothWays(walked: set<string>, w: seq<Commit>, r: GitSignals, e: G.Edge)
    requires IsReport(walked, w, r)
    requires e in StrongEdges(r.coChangePairs) && G.Reverse(e) in StrongEdges(r.coChangePairs)
    ensures e.0 == e.1
  {
    var p := PairOf(r.coChangePairs, e);
    var q := PairOf(r.coChangePairs, G.Reverse(e));
    EachPairOnce(walked, w, r, p, q);
  }

  lemma NeverMutual(walked: set<string>, w: seq<Commit>, r: GitSignals)
    requires IsReport(walked, w, r)
    ensures G.Mutual(StrongEdges(r.coChangePairs)) == {}
  {
    var edges := StrongEdges(r.coChangePairs);
    forall e | e in edges && G.Reverse(e) in edges ensures e.0 == e.1 {
      NotBothWays(walked, w, r, e);
    }
  }

  lemma NoMinedLoops(walked: set<string>, w: seq<Commit>, r: GitSignals)
    requires IsReport(walked, w, r) && AtMostTwice(walked, w)
    ensures G.Loops(StrongEdges(r.coChangePairs)) == {}
  {
    forall e | e in StrongEdges(r.coChangePairs) ensures e.0 != e.1 {
      var p := PairOf(r.coChangePairs, e);
      assert Listed(walked, w, p);
      SelfPairsAreFew(walked, w, p.a);
    }
  }

  /** So for every history in which no commit lists a file more than twice, every cluster computed
      from it has a density in [2/n, 1]. */
  lemma MinedClustersAreDense(walked: set<string>, w: seq<Commit>, r: GitSignals, totalFiles: nat, index: ClusterIndex,
                              c: Cluster)
    requires IsReport(walked, w, r) && AtMostTwice(walked, w)
    requires IsIndex(StrongEdges(r.coChangePairs), totalFiles, index) && c in index.clusters
    ensures 2.0 / c.size as real <= c.cohesion <= 1.0
  {
    MinedDensity(walked, w, r, totalFiles, index, c);
    NoMinedLoops(walked, w, r);
    assert G.Loops(Intra(StrongEdges(r.coChangePairs), c.members)) <= G.Loops(StrongEdges(r.coChangePairs));
  }

  /** Position of the first appearance of `x`. */
  function FirstIndex(s: seq<string>, x: string): nat
    requires x in s
    decreases |s|
  {
    var n := |s| - 1;
    assert s == s[..n] + [s[n]];
    if x in s[..n] then FirstIndex(s[..n], x) else n
  }

  lemma {:induction false} FirstIndexBound(s: seq<string>, x: string)
    requires x in s
    ensures FirstIndex(s, x) < |s| && s[FirstIndex(s, x)] == x
    ensures forall k :: 0 <= k < FirstIndex(s, x) ==> s[k] != x
    decreases |s|
  {
    if x in s[..|s| - 1] {
      FirstIndexBound(s[..|s| - 1], x);
    } else {
      assert forall k :: 0 <= k < |s| - 1 ==> s[k] == s[..|s| - 1][k];
    }
  }

  /** The order of first appearance is the order of first positions. */
  lemma {:induction false} FirstSeenByIndex(s: seq<string>, i: nat, j: nat)
    requires i < j < |FirstSeen(s)|
    ensures FirstSeen(s)[i] in s && FirstSeen(s)[j] in s
    ensures FirstIndex(s, FirstSeen(s)[i]) < FirstIndex(s, FirstSeen(s)[j])
    decreases |s|
  {
    var n := |s| - 1;
    var before := FirstSeen(s[..n]);
    assert s == s[..n] + [s[n]];
    if j < |before| {
      FirstSeenByIndex(s[..n], i, j);
    } else {
      assert before[i] in s[..n];
      FirstIndexBound(s[..n], before[i]);
    }
  }

  /** A reported pair is not ordered by name: of two files, the one that the walk meets first
      is listed first. The documented order `a < b` therefore holds exactly when the
      lexicographically smaller file is met first. */
  lemma PairDirection(walked: set<string>, w: seq<Commit>, x: string, y: string, n: nat)
    requires x != y && StringLe(x, y)
    requires Listed(walked, w, Pair(x, y, n)) || Listed(walked, w, Pair(y, x, n))
    ensures x in Flat(walked, w) && y in Flat(walked, w)
    ensures Listed(walked, w, Pair(x, y, n)) <==> FirstIndex(Flat(walked, w), x) < FirstIndex(Flat(walked, w), y)
  {
    var names := FirstSeen(Flat(walked, w));
    if Listed(walked, w, Pair(x, y, n)) {
      var i, j :| 0 <= i <= j < |names| && names[i] == x && names[j] == y;
      FirstSeenByIndex(Flat(walked, w), i, j);
    } else {
      var i, j :| 0 <= i <= j < |names| && names[i] == y && names[j] == x;
      FirstSeenByIndex(Flat(walked, w), i, j);
    }
  }

  const WALKED: set<string> := {"a", "b"}
  const CHANGE_A: Delta := Delta(OtherChange, Some("a"), Some("a"))
  const CHANGE_B: Delta := Delta(OtherChange, Some("b"), Some("b"))
  const NEWEST: Commit := Commit(1, None, None, [CHANGE_B])
  const OLDEST: Commit := Commit(0, None, None, [CHANGE_A, CHANGE_B])

  lemma ExampleFiles()
    ensures Files(WALKED, NEWEST) == ["b"] && Files(WALKED, OLDEST) == ["a", "b"]
  {
    assert Slashes("b") == "b" && Slashes("a") == "a";
    assert [CHANGE_B][..0] == [];
    assert [CHANGE_A, CHANGE_B][..1] == [CHANGE_A] && [CHANGE_A][..0] == [];
    assert Touched(WALKED, [CHANGE_A]) == ["a"];
  }

  lemma FirstSeenAgain(x: string, y: string)
    requires x != y
    ensures FirstSeen([x, y, x]) == [x, y]
  {
    assert FirstSeen<string>([]) == [] && [] + [x] == [x] && [x] + [y] == [x, y] && [x, y] + [x] == [x, y, x];
    HistoryTally.FirstSeenSnoc([], x);
    HistoryTally.FirstSeenSnoc([x], y);
    HistoryTally.FirstSeenSnoc([x, y], x);
  }

  lemma ExampleOrder()
    ensures Flat(WALKED, [NEWEST, OLDEST]) == ["b", "a", "b"]
  {
    ExampleFiles();
    assert [NEWEST, OLDEST][..1] == [NEWEST] && [NEWEST][..0] == [];
    assert Flat(WALKED, [NEWEST]) == ["b"];
  }

  lemma OccurrencesOfTwo(x: string, y: string, p: string)
    ensures Occurrences([x], p) == One(x == p) && Occurrences([x, y], p) == One(x == p) + One(y == p)
  {
    assert [x, y][1..] == [y] && [x][1..] == [] && [y][1..] == [];
  }

  lemma ExampleTotals()
    ensures Freq(WALKED, [NEWEST, OLDEST], "a") == 1 && Freq(WALKED, [NEWEST, OLDEST], "b") == 2
    ensures PairFreq(WALKED, [NEWEST, OLDEST], "b", "a") == 1
  {
    ExampleFiles();
    OccurrencesOfTwo("b", "b", "a");
    OccurrencesOfTwo("b", "b", "b");
    OccurrencesOfTwo("a", "b", "a");
    OccurrencesOfTwo("a", "b", "b");
    assert [NEWEST, OLDEST][..1] == [NEWEST];
    OneCommit(NEWEST, "a");
    OneCommit(NEWEST, "b");
    assert PairFreq(WALKED, [NEWEST], "b", "a") == 0;
  }

  lemma OneCommit(c: Commit, p: string)
    ensures Freq(WALKED, [c], p) == Occurrences(Files(WALKED, c), p)
    ensures !PairsCount(|Files(WALKED, c)|) ==> forall q :: PairFreq(WALKED, [c], q, p) == 0
  {
    assert [c][..0] == [];
  }

  /** The newest commit touches "b", the one before "a" and "b": the pair is reported as ("b", "a"). */
  lemma ReversedPairExample(r: GitSignals)
    requires IsReport(WALKED, [NEWEST, OLDEST], r)
    ensures Pair("b", "a", 1) in r.coChangePairs
  {
    ExampleOrder();
    FirstSeenAgain("b", "a");
    ExampleTotals();
    var names := FirstSeen(Flat(WALKED, [NEWEST, OLDEST]));
    assert names[0] == "b" && names[1] == "a";
    assert Listed(WALKED, [NEWEST, OLDEST], Pair("b", "a", 1));
  }

  // ----- A mined self-pair

  const TRIPLE: Commit := Commit(1, None, None, [CHANGE_A, CHANGE_A, CHANGE_A, CHANGE_B])

  lemma TripleFiles()
    ensures Files(WALKED, TRIPLE) == ["a", "a", "a", "b"]
  {
    var d := [CHANGE_A, CHANGE_A, CHANGE_A, CHANGE_B];
    assert Slashes("b") == "b" && Slashes("a") == "a";
    assert d[..3] == [CHANGE_A, CHANGE_A, CHANGE_A] && d[..3][..2] == [CHANGE_A, CHANGE_A];
    assert [CHANGE_A, CHANGE_A][..1] == [CHANGE_A] && [CHANGE_A][..0] == [];
    assert Touched(WALKED, [CHANGE_A]) == ["a"];
    assert Touched(WALKED, [CHANGE_A, CHANGE_A]) == ["a", "a"];
    assert Touched(WALKED, [CHANGE_A, CHANGE_A, CHANGE_A]) == ["a", "a", "a"];
  }

  lemma OccurrencesOfFour(x: string, y: string, p: string)
    ensures Occurrences([x, x, x, y], p) == 3 * One(x == p) + One(y == p)
  {
    assert [x, x, x, y] == [x, x] + [x, y];
    OccurrencesAppend([x, x], [x, y], p);
    OccurrencesOfTwo(x, x, p);
    OccurrencesOfTwo(x, y, p);
  }

  /** Two equal commits double every total. */
  lemma Twice(c: Commit, p: string, q: string)
    ensures Freq(WALKED, [c, c], p) == 2 * Occurrences(Files(WALKED, c), p)
    ensures PairFreq(WALKED, [c, c], p, q) ==
      if PairsCount(|Files(WALKED, c)|) then 2 * Joint(Files(WALKED, c), p, q) else 0
    ensures Flat(WALKED, [c, c]) == Files(WALKED, c) + Files(WALKED, c)
  {
    assert [c, c][..1] == [c] && [c][..0] == [];
    assert Freq(WALKED, [c], p) == Occurrences(Files(WALKED, c), p);
    assert PairFreq(WALKED, [c], p, q) == if PairsCount(|Files(WALKED, c)|) then Joint(Files(WALKED, c), p, q) else 0;
    assert Flat(WALKED, [c]) == [] + Files(WALKED, c) == Files(WALKED, c);
  }

  /** Totals of a history over two files, the first of which is paired with itself each time. */
  ghost predicate SelfPaired(walked: set<string>, w: seq<Commit>, a: string, b: string) {
    && Freq(walked, w, a) == 6 && Freq(walked, w, b) == 2
    && PairFreq(walked, w, a, a) == 6 && PairFreq(walked, w, a, b) == 6 && PairFreq(walked, w, b, b) == 0
  }

  lemma TripleTotals()
    ensures SelfPaired(WALKED, [TRIPLE, TRIPLE], "a", "b")
  {
    TripleFiles();
    OccurrencesOfFour("a", "b", "a");
    OccurrencesOfFour("a", "b", "b");
    Twice(TRIPLE, "a", "a");
    Twice(TRIPLE, "a", "b");
    Twice(TRIPLE, "b", "b");
    assert Triangle(0) == 0 && Triangle(1) == 0 && Triangle(2) == 1 && Triangle(3) == 3;
  }

  lemma TwoNames(names: seq<string>, x: string, y: string)
    requires Distinct(names) && names != [] && names[0] == x && x != y && y in names
    requires forall z :: z in names ==> z == x || z == y
    ensures names == [x, y]
  {
    assert Elements(names) == {x, y};
    DistinctSize(names);
    assert |names| == 2 && names[1] in names;
  }

  lemma FirstStays(s: seq<string>)
    requires s != []
    ensures FirstSeen(s) != [] && FirstSeen(s)[0] == s[0]
  {
    assert s == [s[0]] + s[1..] && [] + [s[0]] == [s[0]] && FirstSeen<string>([]) == [];
    HistoryTally.FirstSeenSnoc([], s[0]);
    HistoryTally.FirstSeenPrefix([s[0]], s[1..]);
  }

  /** Files in which `x` comes first and only `y` comes besides are numbered `x`, `y`. */
  lemma FirstSeenOfTwo(s: seq<string>, x: string, y: string)
    requires s != [] && s[0] == x && x != y && y in s && forall z :: z in s ==> z == x || z == y
    ensures FirstSeen(s) == [x, y]
  {
    FirstStays(s);
    var k :| 0 <= k < |s| && s[k] == y;
    TwoNames(FirstSeen(s), x, y);
  }

  lemma TripleNames()
    ensures FirstSeen(Flat(WALKED, [TRIPLE, TRIPLE])) == ["a", "b"]
  {
    TripleFiles();
    Twice(TRIPLE, "a", "b");
    var one := ["a", "a", "a", "b"];
    var flat := one + one;
    assert one[3] in one && flat[0] == "a" && flat[3] == "b";
    FirstSeenOfTwo(flat, "a", "b");
  }

  /** The listed pairs over two numbered files. */
  lemma ListedAmongTwo(walked: set<string>, w: seq<Commit>, a: string, b: string, p: Pair)
    requires FirstSeen(Flat(walked, w)) == [a, b] && Listed(walked, w, p)
    ensures (p.a == a && (p.b == a || p.b == b)) || (p.a == b && p.b == b)
    ensures p.count == PairFreq(walked, w, p.a, p.b) > 0
  {
  }

  lemma ListedIff(walked: set<string>, w: seq<Commit>, i: nat, j: nat)
    requires i <= j < |FirstSeen(Flat(walked, w))|
    ensures var names := FirstSeen(Flat(walked, w));
      var n := PairFreq(walked, w, names[i], names[j]);
      n > 0 && Correlated(n, Freq(walked, w, names[i]), Freq(walked, w, names[j])) ==>
        Listed(walked, w, Pair(names[i], names[j], n))
  {
  }

  lemma SelfPairListed(walked: set<string>, w: seq<Commit>, a: string, b: string)
    requires FirstSeen(Flat(walked, w)) == [a, b] && SelfPaired(walked, w, a, b)
    ensures Listed(walked, w, Pair(a, a, 6)) && Listed(walked, w, Pair(a, b, 6))
  {
    ListedIff(walked, w, 0, 0);
    ListedIff(walked, w, 0, 1);
  }

  lemma EdgesOver(pairs: seq<Pair>, a: string, b: string)
    requires Pair(a, a, 6) in pairs && Pair(a, b, 6) in pairs
    requires forall p :: p in pairs ==> p.a == a && (p.b == a || p.b == b)
    ensures StrongEdges(pairs) == {(a, b), (a, a)}
  {
  }

  lemma SelfPairEdges(walked: set<string>, w: seq<Commit>, a: string, b: string, r: GitSignals)
    requires IsReport(walked, w, r) && FirstSeen(Flat(walked, w)) == [a, b] && SelfPaired(walked, w, a, b)
    ensures Pair(a, a, 6) in r.coChangePairs
    ensures StrongEdges(r.coChangePairs) == {(a, b), (a, a)}
  {
    SelfPairListed(walked, w, a, b);
    forall p | p in r.coChangePairs ensures p.a == a && (p.b == a || p.b == b) {
      ListedAmongTwo(walked, w, a, b, p);
    }
    EdgesOver(r.coChangePairs, a, b);
  }

  lemma SelfPairDensity(a: string, b: string, edges: set<G.Edge>, totalFiles: nat, index: ClusterIndex)
    returns (c: Cluster)
    requires a != b && edges == {(a, b), (a, a)} && IsIndex(edges, totalFiles, index)
    ensures c in index.clusters && c.cohesion == 2.0
  {
    ClusterTheorems.EndpointsOfTwo(a, b, a, a);
    c := ClusterTheorems.TwoFileIndex(edges, totalFiles, index, a, b);
  }

  /** Two commits that list "a" three times each and "b" once pair "a" with itself six times out of
      six: the self-pair is reported and counts as strong. */
  lemma SelfPairExample(r: GitSignals)
    requires IsReport(WALKED, [TRIPLE, TRIPLE], r)
    ensures Pair("a", "a", 6) in r.coChangePairs && StrongEdges(r.coChangePairs) == {("a", "b"), ("a", "a")}
  {
    TripleTotals();
    TripleNames();
    SelfPairEdges(WALKED, [TRIPLE, TRIPLE], "a", "b", r);
  }

  /** So the cluster computed from that history has density 2. */
  lemma DenseExample(r: GitSignals, totalFiles: nat, index: ClusterIndex) returns (c: Cluster)
    requires IsReport(WALKED, [TRIPLE, TRIPLE], r) && IsIndex(StrongEdges(r.coChangePairs), totalFiles, index)
    ensures c in index.clusters && c.cohesion == 2.0
  {
    SelfPairExample(r);
    c := SelfPairDensity("a", "b", StrongEdges(r.coChangePairs), totalFiles, index);
  }
}
