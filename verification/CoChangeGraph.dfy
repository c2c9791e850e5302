/** The undirected graph of strong co-change pairs: connectivity and edge counting. */
module CoChangeGraph {
  import opened Common

  /** An ordered pair as it is listed; it links its endpoints in both directions. */
  type Edge = (string, string)

  ghost predicate Adjacent(edges: set<Edge>, a: string, b: string) {
    (a, b) in edges || (b, a) in edges
  }

  ghost predicate LinkedAt(edges: set<Edge>, path: seq<string>, i: nat)
    requires i + 1 < |path|
  {
    Adjacent(edges, path[i], path[i + 1])
  }

  ghost predicate Chain(edges: set<Edge>, path: seq<string>) {
    && path != []
    && forall i: nat :: i + 1 < |path| ==> LinkedAt(edges, path, i)
  }

  /** Some chain of pairs leads from `a` to `b`. */
  ghost predicate Connected(edges: set<Edge>, a: string, b: string) {
    exists path :: Chain(edges, path) && path[0] == a && path[|path| - 1] == b
  }

  lemma ConnectedSelf(edges: set<Edge>, a: string)
    ensures Connected(edges, a, a)
  {
    assert Chain(edges, [a]);
  }

  lemma ConnectedEdge(edges: set<Edge>, a: string, b: string)
    requires Adjacent(edges, a, b)
    ensures Connected(edges, a, b)
  {
    assert Chain(edges, [a, b]) && [a, b][1] == b;
  }

  lemma ConnectedTrans(edges: set<Edge>, a: string, b: string, c: string)
    requires Connected(edges, a, b) && Connected(edges, b, c)
    ensures Connected(edges, a, c)
  {
    var p :| Chain(edges, p) && p[0] == a && p[|p| - 1] == b;
    var q :| Chain(edges, q) && q[0] == b && q[|q| - 1] == c;
    var r := p + q[1..];
    forall i: nat | i + 1 < |r| ensures LinkedAt(edges, r, i) {
      if i < |p| - 1 {
        assert LinkedAt(edges, p, i);
      } else {
        assert LinkedAt(edges, q, i - |p| + 1);
        assert r[i] == q[i - |p| + 1] && r[i + 1] == q[i - |p| + 2];
      }
    }
    assert Chain(edges, r) && r[|r| - 1] == c;
  }

  lemma ConnectedMono(small: set<Edge>, large: set<Edge>, a: string, b: string)
    requires small <= large && Connected(small, a, b)
    ensures Connected(large, a, b)
  {
    var p :| Chain(small, p) && p[0] == a && p[|p| - 1] == b;
    forall i: nat | i + 1 < |p| ensures LinkedAt(large, p, i) {
      assert LinkedAt(small, p, i);
    }
    assert Chain(large, p);
  }

  /** A chain that leaves `inside` does so over some step. */
  lemma {:induction false} CrossingStep(edges: set<Edge>, path: seq<string>, inside: set<string>) returns (i: nat)
    requires Chain(edges, path) && path[0] in inside && path[|path| - 1] !in inside
    ensures i + 1 < |path| && path[i] in inside && path[i + 1] !in inside
    ensures Adjacent(edges, path[i], path[i + 1])
  {
    i := 0;
    while path[i + 1] in inside
      invariant i + 1 < |path| && path[i] in inside
      decreases |path| - i
    {
      i := i + 1;
    }
    assert LinkedAt(edges, path, i);
  }

  /** Pairs with both endpoints among `nodes`. */
  function Inside(edges: set<Edge>, nodes: set<string>): set<Edge> {
    set e | e in edges && e.0 in nodes && e.1 in nodes
  }

  /** `nodes` is a union of whole components, and any two of its nodes are connected. */
  ghost predicate Component(edges: set<Edge>, nodes: set<string>) {
    && (forall e :: e in edges ==> (e.0 in nodes <==> e.1 in nodes))
    && (forall a, b :: a in nodes && b in nodes ==> Connected(edges, a, b))
  }

  /** Growing a spanned part one node at a time reaches the whole component. */
  lemma {:induction false} GrowSpanned(edges: set<Edge>, nodes: set<string>, part: set<string>)
    requires Component(edges, nodes) && part <= nodes && part != {}
    requires |part| <= |Inside(edges, part)| + 1
    ensures |nodes| <= |Inside(edges, nodes)| + 1
    decreases |nodes - part|
  {
    if part == nodes {
      return;
    }
    var a :| a in part;
    assert !(nodes <= part);
    var b :| b in nodes && b !in part;
    assert Connected(edges, a, b);
    var path :| Chain(edges, path) && path[0] == a && path[|path| - 1] == b;
    var i := CrossingStep(edges, path, part);
    var u, v := path[i], path[i + 1];
    var e := if (u, v) in edges then (u, v) else (v, u);
    assert v in nodes;
    var bigger := part + {v};
    assert e !in Inside(edges, part);
    assert Inside(edges, part) + {e} <= Inside(edges, bigger);
    SubsetSize(Inside(edges, part) + {e}, Inside(edges, bigger));
    assert |nodes - part| > |nodes - bigger| by {
      assert nodes - part == (nodes - bigger) + {v};
    }
    GrowSpanned(edges, nodes, bigger);
  }

  /** A connected component of n nodes holds at least n - 1 pairs. */
  lemma SpanningEdges(edges: set<Edge>, nodes: set<string>)
    requires Component(edges, nodes)
    ensures |nodes| <= |Inside(edges, nodes)| + 1
  {
    if nodes != {} {
      var a :| a in nodes;
      assert |{a}| == 1;
      GrowSpanned(edges, nodes, {a});
    }
  }

  lemma NextProduct(n: nat)
    requires n >= 1
    ensures n * (n - 1) == (n - 1) * (n - 2) + 2 * (n - 1)
  {
  }

  // ----- How many pairs there are, exactly

  function Reverse(e: Edge): Edge {
    (e.1, e.0)
  }

  function Reversed(edges: set<Edge>): set<Edge> {
    set e | e in edges :: Reverse(e)
  }

  /** Files paired with themselves. */
  function Loops(edges: set<Edge>): set<Edge> {
    set e | e in edges && e.0 == e.1
  }

  /** Pairs that are also listed the other way round; both entries count. */
  function Mutual(edges: set<Edge>): set<Edge> {
    set e | e in edges && e.0 != e.1 && Reverse(e) in edges
  }

  /** Ordered pairs of different nodes; each two nodes count twice. */
  function Ordered(nodes: set<string>): set<Edge> {
    set a, b | a in nodes && b in nodes && a != b :: (a, b)
  }

  /** Those without a pair in either direction; again each two nodes count twice. */
  ghost function Strangers(edges: set<Edge>, nodes: set<string>): set<Edge> {
    set e | e in Ordered(nodes) && !Adjacent(edges, e.0, e.1)
  }

  lemma {:induction false} ReversedSize(edges: set<Edge>)
    ensures |Reversed(edges)| == |edges|
    decreases |edges|
  {
    if edges == {} {
    } else {
      var e :| e in edges;
      ReversedSize(edges - {e});
      forall f | f in Reversed(edges - {e}) ensures f != Reverse(e) {
        assert Reverse(f) in edges - {e} && Reverse(Reverse(e)) == e;
      }
      assert Reversed(edges) == Reversed(edges - {e}) + {Reverse(e)};
    }
  }

  function From(v: string, others: set<string>): set<Edge> {
    set x | x in others :: (v, x)
  }

  function Into(v: string, others: set<string>): set<Edge> {
    set x | x in others :: (x, v)
  }

  lemma {:induction false} FromSize(v: string, others: set<string>)
    ensures |From(v, others)| == |others|
    decreases |others|
  {
    if others == {} {
    } else {
      var x :| x in others;
      FromSize(v, others - {x});
      assert From(v, others) == From(v, others - {x}) + {(v, x)};
    }
  }

  /** n nodes have n(n-1) ordered pairs. */
  lemma {:induction false} OrderedSize(nodes: set<string>)
    ensures |Ordered(nodes)| == |nodes| * (|nodes| - 1)
    decreases |nodes|
  {
    if nodes == {} {
      assert Ordered(nodes) == {};
    } else {
      var v :| v in nodes;
      var rest := nodes - {v};
      OrderedSize(rest);
      OrderedSplit(rest, v);
      assert nodes == rest + {v};
      NextProduct(|nodes|);
    }
  }

  lemma IntoSize(v: string, others: set<string>)
    ensures |Into(v, others)| == |others|
  {
    FromSize(v, others);
    ReversedSize(From(v, others));
    forall x | x in others ensures (x, v) in Reversed(From(v, others)) {
      assert (v, x) in From(v, others) && Reverse((v, x)) == (x, v);
    }
    assert Into(v, others) == Reversed(From(v, others));
  }

  lemma DisjointSizes(a: set<Edge>, b: set<Edge>, c: set<Edge>)
    requires a !! b && a !! c && b !! c
    ensures |a + b + c| == |a| + |b| + |c|
  {
    assert a + b !! c;
  }

  lemma OrderedSplit(rest: set<string>, v: string)
    requires v !in rest
    ensures |Ordered(rest + {v})| == |Ordered(rest)| + 2 * |rest|
  {
    FromSize(v, rest);
    IntoSize(v, rest);
    DisjointSizes(Ordered(rest), From(v, rest), Into(v, rest));
    assert Ordered(rest + {v}) == Ordered(rest) + From(v, rest) + Into(v, rest);
  }

  /** Every entry that is no loop, and every such entry turned round, links two nodes; what is
      counted twice that way is listed both ways. */
  lemma LinkedTwice(proper: set<Edge>, nodes: set<string>)
    requires forall e :: e in proper ==> e.0 in nodes && e.1 in nodes && e.0 != e.1
    ensures 2 * |proper| + |Strangers(proper, nodes)| == |Ordered(nodes)| + |Mutual(proper)|
  {
    var back := Reversed(proper);
    ReversedSize(proper);
    assert forall e :: e in back <==> Reverse(e) in proper by {
      forall e | Reverse(e) in proper ensures e in back {
        assert Reverse(Reverse(e)) == e;
      }
    }
    assert proper * back == Mutual(proper);
    assert Ordered(nodes) == (proper + back) + Strangers(proper, nodes);
    assert proper + back !! Strangers(proper, nodes);
  }

  /** The exact number of pairs among n nodes: n(n-1)/2, plus one for each two nodes listed both
      ways and for each loop, minus one for each two nodes without a pair. */
  lemma PairCount(edges: set<Edge>, nodes: set<string>)
    requires forall e :: e in edges ==> e.0 in nodes && e.1 in nodes
    ensures 2 * |edges| + |Strangers(edges, nodes)| == |nodes| * (|nodes| - 1) + |Mutual(edges)| + 2 * |Loops(edges)|
  {
    var proper := edges - Loops(edges);
    LinkedTwice(proper, nodes);
    OrderedSize(nodes);
    assert edges == proper + Loops(edges);
    assert Mutual(proper) == Mutual(edges);
    assert Strangers(proper, nodes) == Strangers(edges, nodes);
  }

  /** Endpoints differ and no pair is listed in both directions. */
  ghost predicate OneOrientation(edges: set<Edge>) {
    forall a: string, b: string :: (a, b) in edges ==> a != b && (b, a) !in edges
  }

  /** Then n nodes hold at most n(n-1)/2 pairs. */
  lemma SimpleEdges(edges: set<Edge>, nodes: set<string>)
    requires OneOrientation(edges)
    ensures 2 * |Inside(edges, nodes)| <= |nodes| * (|nodes| - 1)
  {
    var inside := Inside(edges, nodes);
    PairCount(inside, nodes);
    forall e | e in inside ensures e.0 != e.1 && Reverse(e) !in inside {
      assert (e.0, e.1) in edges;
    }
    assert Mutual(inside) == {} && Loops(inside) == {};
  }

  function Leaving(edges: set<Edge>, m: string): set<Edge> {
    set e | e in edges && e.0 == m
  }

  function Entering(edges: set<Edge>, m: string): set<Edge> {
    set e | e in edges && e.1 == m
  }

  /** Number of pair ends at `m`. */
  function Degree(edges: set<Edge>, m: string): nat {
    |Leaving(edges, m)| + |Entering(edges, m)|
  }

  function DegreeSum(edges: set<Edge>, members: seq<string>): nat {
    if members == [] then 0 else Degree(edges, members[0]) + DegreeSum(edges, members[1..])
  }

  function LeavingAny(edges: set<Edge>, members: seq<string>): set<Edge> {
    set e | e in edges && e.0 in members
  }

  function EnteringAny(edges: set<Edge>, members: seq<string>): set<Edge> {
    set e | e in edges && e.1 in members
  }

  lemma LeavingSplit(edges: set<Edge>, m: string, rest: seq<string>)
    requires m !in rest
    ensures |LeavingAny(edges, [m] + rest)| == |Leaving(edges, m)| + |LeavingAny(edges, rest)|
  {
    assert LeavingAny(edges, [m] + rest) == Leaving(edges, m) + LeavingAny(edges, rest);
    assert Leaving(edges, m) !! LeavingAny(edges, rest);
  }

  lemma EnteringSplit(edges: set<Edge>, m: string, rest: seq<string>)
    requires m !in rest
    ensures |EnteringAny(edges, [m] + rest)| == |Entering(edges, m)| + |EnteringAny(edges, rest)|
  {
    assert EnteringAny(edges, [m] + rest) == Entering(edges, m) + EnteringAny(edges, rest);
    assert Entering(edges, m) !! EnteringAny(edges, rest);
  }

  lemma {:induction false} DegreeSumCounts(edges: set<Edge>, members: seq<string>)
    requires Distinct(members)
    ensures DegreeSum(edges, members) == |LeavingAny(edges, members)| + |EnteringAny(edges, members)|
  {
    if members == [] {
      assert LeavingAny(edges, members) == EnteringAny(edges, members) == {};
    } else {
      DegreeSumCounts(edges, members[1..]);
      LeavingSplit(edges, members[0], members[1..]);
      EnteringSplit(edges, members[0], members[1..]);
      assert members == [members[0]] + members[1..];
    }
  }

  /** Degrees over a node list that holds every endpoint add up to twice the number of pairs. */
  lemma Handshake(edges: set<Edge>, members: seq<string>)
    requires Distinct(members)
    requires forall e :: e in edges ==> e.0 in members && e.1 in members
    ensures DegreeSum(edges, members) == 2 * |edges|
  {
    DegreeSumCounts(edges, members);
    assert LeavingAny(edges, members) == EnteringAny(edges, members) == edges;
  }
}
