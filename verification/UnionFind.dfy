/** The disjoint-set forest that groups co-changing files: path compression and union by rank
    over a parent array and a rank array. */
module UnionFind {
  import opened Common

  /** Parent links stay inside the forest and ranks strictly increase along them. */
  ghost predicate Ranked(p: seq<nat>, rk: seq<nat>) {
    && |p| == |rk|
    && (forall i {:trigger p[i]} :: 0 <= i < |p| ==> p[i] < |p|)
    && (forall i {:trigger rk[i]} :: 0 <= i < |p| ==> rk[i] < |p|)
    && (forall i {:trigger p[i]} :: 0 <= i < |p| && p[i] != i ==> rk[i] < rk[p[i]])
  }

  /** The representative that parent links lead to. */
  ghost function Root(p: seq<nat>, rk: seq<nat>, x: nat): (r: nat)
    requires Ranked(p, rk) && x < |p|
    ensures r < |p| && p[r] == r && rk[x] <= rk[r]
    decreases |p| - rk[x]
  {
    if p[x] == x then x else Root(p, rk, p[x])
  }

  /** Number of parent links from `x` to its representative. */
  ghost function Depth(p: seq<nat>, rk: seq<nat>, x: nat): (d: nat)
    requires Ranked(p, rk) && x < |p|
    ensures rk[x] + d <= rk[Root(p, rk, x)]
    decreases |p| - rk[x]
  {
    if p[x] == x then 0 else 1 + Depth(p, rk, p[x])
  }

  ghost function Tree(p: seq<nat>, rk: seq<nat>, r: nat): set<nat>
    requires Ranked(p, rk)
  {
    set i: nat | i < |p| && Root(p, rk, i) == r
  }

  /** Every tree is at least exponentially large in the rank of its root. */
  ghost predicate Balanced(p: seq<nat>, rk: seq<nat>) {
    && Ranked(p, rk)
    && forall r: nat {:trigger Tree(p, rk, r)} :: r < |p| && p[r] == r ==> Pow2(rk[r]) <= |Tree(p, rk, r)|
  }

  ghost predicate SameRoots(p: seq<nat>, q: seq<nat>, rk: seq<nat>) {
    && Ranked(p, rk) && Ranked(q, rk)
    && forall y: nat {:trigger Root(q, rk, y)} :: y < |p| ==> Root(q, rk, y) == Root(p, rk, y)
  }

  /** Two nodes are together after joining `a` and `b` exactly when they were together
      before, or one was with `a` and the other with `b`. */
  ghost predicate Joined(p: seq<nat>, rk: seq<nat>, q: seq<nat>, rk': seq<nat>, a: nat, b: nat) {
    && Ranked(p, rk) && Ranked(q, rk') && |p| == |q|
    && a < |p| && b < |p|
    && forall x: nat, y: nat {:trigger Root(q, rk', x), Root(q, rk', y)} :: x < |p| && y < |p| ==>
      (Root(q, rk', x) == Root(q, rk', y)
       <==> || Root(p, rk, x) == Root(p, rk, y)
            || (Root(p, rk, x) == Root(p, rk, a) && Root(p, rk, y) == Root(p, rk, b))
            || (Root(p, rk, x) == Root(p, rk, b) && Root(p, rk, y) == Root(p, rk, a)))
  }

  ghost function RangeSet(n: nat): (s: set<nat>)
    ensures forall i: nat :: i in s <==> i < n
    ensures |s| == n
  {
    if n == 0 then {} else RangeSet(n - 1) + {n - 1}
  }

  /** In every balanced forest, no node lies deeper than log2 of the number of nodes. */
  lemma LogarithmicDepth(p: seq<nat>, rk: seq<nat>, x: nat)
    requires Balanced(p, rk) && x < |p|
    ensures Pow2(Depth(p, rk, x)) <= |p|
  {
    var r := Root(p, rk, x);
    Pow2Monotone(Depth(p, rk, x), rk[r]);
    SubsetSize(Tree(p, rk, r), RangeSet(|p|));
  }

  /** Pointing one node straight at its representative changes no representative. */
  lemma {:induction false} CompressOne(p: seq<nat>, rk: seq<nat>, x: nat, y: nat)
    requires Ranked(p, rk) && x < |p| && y < |p|
    ensures Ranked(p[x := Root(p, rk, x)], rk)
    ensures Root(p[x := Root(p, rk, x)], rk, y) == Root(p, rk, y)
    decreases |p| - rk[y]
  {
    var q := p[x := Root(p, rk, x)];
    if p[x] != x {
      assert rk[x] < rk[p[x]] <= rk[Root(p, rk, p[x])];
    }
    assert Ranked(q, rk);
    if y == x {
      var r := Root(p, rk, x);
      assert q[r] == r;
      assert Root(q, rk, x) == Root(q, rk, r);
    } else if p[y] != y {
      CompressOne(p, rk, x, p[y]);
    }
  }

  lemma SameRootsBalanced(p: seq<nat>, q: seq<nat>, rk: seq<nat>)
    requires Balanced(p, rk) && SameRoots(p, q, rk)
    ensures Balanced(q, rk)
  {
    forall r: nat | r < |q| && q[r] == r ensures Pow2(rk[r]) <= |Tree(q, rk, r)| {
      assert Root(q, rk, r) == r == Root(p, rk, r);
      assert Tree(q, rk, r) == Tree(p, rk, r);
    }
  }

  /** `y` lies on the parent path that starts at `x`. */
  ghost predicate OnPath(p: seq<nat>, rk: seq<nat>, x: nat, y: nat)
    requires Ranked(p, rk) && x < |p|
    decreases |p| - rk[x]
  {
    y == x || (p[x] != x && OnPath(p, rk, p[x], y))
  }

  lemma {:induction false} PathRises(p: seq<nat>, rk: seq<nat>, x: nat, y: nat)
    requires Ranked(p, rk) && x < |p| && OnPath(p, rk, x, y)
    ensures y < |p| && rk[x] <= rk[y]
    decreases |p| - rk[x]
  {
    if y == x {
    } else {
      PathRises(p, rk, p[x], y);
    }
  }

  /** `find`: returns the representative, points every node of the walked path at it, leaves
      every other link alone, and uses one frame per link plus one. */
  method Find(parent: array<nat>, x: nat, ghost rk: seq<nat>) returns (root: nat, ghost frames: nat)
    requires Ranked(parent[..], rk) && x < parent.Length
    modifies parent
    ensures SameRoots(old(parent[..]), parent[..], rk)
    ensures root == Root(old(parent[..]), rk, x)
    ensures forall y :: 0 <= y < parent.Length ==>
      parent[y] == if OnPath(old(parent[..]), rk, x, y) then root else old(parent[y])
    ensures frames == Depth(old(parent[..]), rk, x) + 1
    ensures Balanced(old(parent[..]), rk) ==> Balanced(parent[..], rk) && Pow2(frames - 1) <= parent.Length
    decreases parent.Length - rk[x]
  {
    ghost var before := parent[..];
    frames := 1;
    if parent[x] != x {
      var r, inner := Find(parent, parent[x], rk);
      ghost var middle := parent[..];
      assert Root(middle, rk, x) == Root(before, rk, x) == r;
      parent[x] := r;
      assert parent[..] == middle[x := r];
      forall y: nat | y < |before|
        ensures Ranked(parent[..], rk) && Root(parent[..], rk, y) == Root(before, rk, y)
      {
        CompressOne(middle, rk, x, y);
        assert Root(middle, rk, y) == Root(before, rk, y);
      }
      frames := 1 + inner;
    }
    root := parent[x];
    if Balanced(before, rk) {
      LogarithmicDepth(before, rk, x);
      SameRootsBalanced(before, parent[..], rk);
    }
  }

  /** Hanging one root under another moves exactly its tree. */
  lemma {:induction false} LinkRoots(p: seq<nat>, rk: seq<nat>, rk': seq<nat>, child: nat, top: nat, y: nat)
    requires Ranked(p, rk) && child < |p| && top < |p| && y < |p|
    requires child != top && p[child] == child && p[top] == top
    requires Ranked(p[child := top], rk')
    ensures Root(p[child := top], rk', y) ==
      if Root(p, rk, y) == child then top else Root(p, rk, y)
    decreases |p| - rk[y]
  {
    var q := p[child := top];
    if y == child {
      assert q[y] == top && q[top] == top;
      assert Root(q, rk', y) == Root(q, rk', top);
    } else if p[y] != y {
      LinkRoots(p, rk, rk', child, top, p[y]);
    }
  }

  /** The ranks after linking: the root grows only when both had equal rank. */
  ghost function LinkedRank(rk: seq<nat>, child: nat, top: nat): seq<nat>
    requires child < |rk| && top < |rk|
  {
    if rk[child] == rk[top] then rk[top := rk[top] + 1] else rk
  }

  lemma TwoTreesFit(p: seq<nat>, rk: seq<nat>, a: nat, b: nat)
    requires Ranked(p, rk) && a != b
    ensures |Tree(p, rk, a) + Tree(p, rk, b)| == |Tree(p, rk, a)| + |Tree(p, rk, b)| <= |p|
  {
    assert Tree(p, rk, a) !! Tree(p, rk, b);
    SubsetSize(Tree(p, rk, a) + Tree(p, rk, b), RangeSet(|p|));
  }

  /** The tree of `child` has become part of the tree of `top`; nothing else moved. */
  ghost predicate Moved(p: seq<nat>, rk: seq<nat>, q: seq<nat>, rk': seq<nat>, child: nat, top: nat) {
    && Ranked(p, rk) && Ranked(q, rk') && |p| == |q|
    && forall y: nat {:trigger Root(q, rk', y)} :: y < |p| ==>
      Root(q, rk', y) == if Root(p, rk, y) == child then top else Root(p, rk, y)
  }

  /** Two distinct roots `child` and `top` that union by rank may link. */
  ghost predicate Linkable(p: seq<nat>, rk: seq<nat>, child: nat, top: nat) {
    && Balanced(p, rk) && child < |p| && top < |p| && child != top
    && p[child] == child && p[top] == top && rk[child] <= rk[top]
  }

  /** Equal ranks double the guaranteed size, so the new rank is paid for and still fits. */
  lemma LinkedRankFits(p: seq<nat>, rk: seq<nat>, child: nat, top: nat)
    requires Linkable(p, rk, child, top)
    ensures Pow2(LinkedRank(rk, child, top)[top]) <= |Tree(p, rk, child)| + |Tree(p, rk, top)|
    ensures LinkedRank(rk, child, top)[top] < |p|
  {
    TwoTreesFit(p, rk, child, top);
    assert Pow2(rk[child]) <= |Tree(p, rk, child)| && Pow2(rk[top]) <= |Tree(p, rk, top)|;
  }

  lemma LinkMoves(p: seq<nat>, rk: seq<nat>, child: nat, top: nat)
    requires Linkable(p, rk, child, top)
    ensures Moved(p, rk, p[child := top], LinkedRank(rk, child, top), child, top)
  {
    var q, rk' := p[child := top], LinkedRank(rk, child, top);
    LinkedRankFits(p, rk, child, top);
    assert Ranked(q, rk');
    forall y: nat | y < |p|
      ensures Root(q, rk', y) == if Root(p, rk, y) == child then top else Root(p, rk, y)
    {
      LinkRoots(p, rk, rk', child, top, y);
    }
  }

  /** Union by rank keeps the forest balanced. */
  lemma LinkBalanced(p: seq<nat>, rk: seq<nat>, child: nat, top: nat)
    requires Linkable(p, rk, child, top)
    ensures Balanced(p[child := top], LinkedRank(rk, child, top))
  {
    var q, rk' := p[child := top], LinkedRank(rk, child, top);
    LinkMoves(p, rk, child, top);
    forall r: nat | r < |q| && q[r] == r ensures Pow2(rk'[r]) <= |Tree(q, rk', r)| {
      if r == top {
        LinkedRankFits(p, rk, child, top);
        TwoTreesFit(p, rk, child, top);
        assert Tree(q, rk', top) == Tree(p, rk, child) + Tree(p, rk, top);
      } else {
        assert r != child;
        assert Tree(q, rk', r) == Tree(p, rk, r);
      }
    }
  }

  lemma MovedJoins(p: seq<nat>, rk: seq<nat>, q: seq<nat>, rk': seq<nat>, child: nat, top: nat, a: nat, b: nat)
    requires Moved(p, rk, q, rk', child, top) && a < |p| && b < |p|
    requires || (child == Root(p, rk, a) && top == Root(p, rk, b))
             || (child == Root(p, rk, b) && top == Root(p, rk, a))
    ensures Joined(p, rk, q, rk', a, b)
  {
  }

  lemma JoinedAfterSameRoots(p: seq<nat>, m: seq<nat>, rk: seq<nat>, q: seq<nat>, rk': seq<nat>, a: nat, b: nat)
    requires SameRoots(p, m, rk) && Joined(m, rk, q, rk', a, b)
    ensures Joined(p, rk, q, rk', a, b)
  {
    forall y: nat | y < |p| ensures Root(p, rk, y) == Root(m, rk, y) {
    }
  }

  /** Finding both representatives rearranges links but no group. */
  method FindBoth(parent: array<nat>, a: nat, b: nat, ghost rk: seq<nat>) returns (ra: nat, rb: nat)
    requires Balanced(parent[..], rk) && a < parent.Length && b < parent.Length
    modifies parent
    ensures SameRoots(old(parent[..]), parent[..], rk) && Balanced(parent[..], rk)
    ensures ra == Root(parent[..], rk, a) && rb == Root(parent[..], rk, b)
  {
    ghost var before := parent[..];
    ghost var frames;
    ra, frames := Find(parent, a, rk);
    ghost var middle := parent[..];
    rb, frames := Find(parent, b, rk);
    forall y: nat | y < |before| ensures Root(parent[..], rk, y) == Root(before, rk, y) {
      assert Root(parent[..], rk, y) == Root(middle, rk, y) == Root(before, rk, y);
    }
    assert rb == Root(parent[..], rk, b);
  }

  /** `union`: merges exactly the two groups and keeps the forest balanced. */
  method Union(parent: array<nat>, rank: array<nat>, a: nat, b: nat)
    requires parent != rank && Balanced(parent[..], rank[..])
    requires a < parent.Length && b < parent.Length
    modifies parent, rank
    ensures Balanced(parent[..], rank[..])
    ensures Joined(old(parent[..]), old(rank[..]), parent[..], rank[..], a, b)
  {
    ghost var before := parent[..];
    ghost var rk := rank[..];
    var ra, rb := FindBoth(parent, a, b, rk);
    ghost var p := parent[..];
    if ra == rb {
      JoinedWhenEqual(before, p, rk, a, b);
      return;
    }
    ghost var child, top := if rank[ra] < rank[rb] then ra else rb, if rank[ra] < rank[rb] then rb else ra;
    if rank[ra] < rank[rb] {
      parent[ra] := rb;
    } else if rank[ra] > rank[rb] {
      parent[rb] := ra;
    } else {
      parent[rb] := ra;
      rank[ra] := rank[ra] + 1;
    }
    assert parent[..] == p[child := top] && rank[..] == LinkedRank(rk, child, top);
    LinkBalanced(p, rk, child, top);
    LinkMoves(p, rk, child, top);
    MovedJoins(p, rk, parent[..], rank[..], child, top, a, b);
    JoinedAfterSameRoots(before, p, rk, parent[..], rank[..], a, b);
  }

  lemma JoinedWhenEqual(p: seq<nat>, q: seq<nat>, rk: seq<nat>, a: nat, b: nat)
    requires SameRoots(p, q, rk) && a < |p| && b < |p| && Root(q, rk, a) == Root(q, rk, b)
    ensures Joined(p, rk, q, rk, a, b)
  {
  }
}
