/** The import graph seen from the imported side, and its breadth-first traversal. */
module ImportGraph {
  import opened Common

  /** For each file, the files that import it. */
  type Graph = map<string, seq<string>>

  function Importers(g: Graph, n: string): seq<string> {
    if n in g then g[n] else []
  }

  // ----- What lies within a radius

  ghost predicate ImportedAt(g: Graph, path: seq<string>, i: nat)
    requires i + 1 < |path|
  {
    path[i + 1] in Importers(g, path[i])
  }

  /** Each file on `path` is imported by the next one. */
  ghost predicate IsWalk(g: Graph, path: seq<string>) {
    path != [] && forall i: nat :: i + 1 < |path| ==> ImportedAt(g, path, i)
  }

  /** Some chain of 1 to `d` imports leads from `n` down to `f`. */
  ghost predicate WithinSteps(g: Graph, f: string, d: nat, n: string) {
    exists path :: IsWalk(g, path) && 1 < |path| <= d + 1 && path[0] == f && path[|path| - 1] == n
  }

  /** The union of the importer lists of some files. */
  ghost function Expand(g: Graph, nodes: set<string>): set<string> {
    if nodes == {} then {}
    else
      var m :| m in nodes;
      Elements(Importers(g, m)) + Expand(g, nodes - {m})
  }

  lemma {:induction false} InExpand(g: Graph, nodes: set<string>, m: string)
    requires m in nodes
    ensures Elements(Importers(g, m)) <= Expand(g, nodes)
    decreases nodes
  {
    var k :| k in nodes && Expand(g, nodes) == Elements(Importers(g, k)) + Expand(g, nodes - {k});
    if k != m {
      InExpand(g, nodes - {k}, m);
    }
  }

  lemma {:induction false} ExpandedFrom(g: Graph, nodes: set<string>, n: string) returns (m: string)
    requires n in Expand(g, nodes)
    ensures m in nodes && n in Importers(g, m)
    decreases nodes
  {
    var k :| k in nodes && Expand(g, nodes) == Elements(Importers(g, k)) + Expand(g, nodes - {k});
    if n in Importers(g, k) {
      m := k;
    } else {
      assert n !in Elements(Importers(g, k));
      m := ExpandedFrom(g, nodes - {k}, n);
    }
  }

  lemma ExpandMonotone(g: Graph, a: set<string>, b: set<string>)
    requires a <= b
    ensures Expand(g, a) <= Expand(g, b)
  {
    forall n | n in Expand(g, a) ensures n in Expand(g, b) {
      var m := ExpandedFrom(g, a, n);
      InExpand(g, b, m);
    }
  }

  lemma ExpandUnion(g: Graph, a: set<string>, b: set<string>)
    ensures Expand(g, a + b) == Expand(g, a) + Expand(g, b)
  {
    ExpandMonotone(g, a, a + b);
    ExpandMonotone(g, b, a + b);
    forall n | n in Expand(g, a + b) ensures n in Expand(g, a) || n in Expand(g, b) {
      var m := ExpandedFrom(g, a + b, n);
      if m in a {
        InExpand(g, a, m);
      } else {
        InExpand(g, b, m);
      }
    }
  }

  lemma ExpandOne(g: Graph, m: string)
    ensures Expand(g, {m}) == Elements(Importers(g, m))
  {
    InExpand(g, {m}, m);
    forall n | n in Expand(g, {m}) ensures n in Importers(g, m) {
      var k := ExpandedFrom(g, {m}, n);
    }
  }

  /** Level by level: the files reached in 1 to `d` steps. */
  ghost function Radius(g: Graph, f: string, d: nat): set<string> {
    if d == 0 then {} else Expand(g, {f} + Radius(g, f, d - 1))
  }

  lemma {:induction false} RadiusGrows(g: Graph, f: string, d: nat)
    ensures Radius(g, f, d) <= Radius(g, f, d + 1)
  {
    if d == 0 {
    } else {
      RadiusGrows(g, f, d - 1);
      ExpandMonotone(g, {f} + Radius(g, f, d - 1), {f} + Radius(g, f, d));
    }
  }

  lemma {:induction false} RadiusMonotone(g: Graph, f: string, c: nat, d: nat)
    requires c <= d
    ensures Radius(g, f, c) <= Radius(g, f, d)
    decreases d
  {
    if c >= d {
    } else {
      RadiusMonotone(g, f, c, d - 1);
      RadiusGrows(g, f, d - 1);
    }
  }

  lemma DirectRadius(g: Graph, f: string)
    ensures Radius(g, f, 1) == Elements(Importers(g, f))
  {
    assert Radius(g, f, 0) == {};
    assert {f} + {} == {f};
    ExpandOne(g, f);
  }

  lemma WalkSnoc(g: Graph, path: seq<string>, n: string)
    requires IsWalk(g, path) && n in Importers(g, path[|path| - 1])
    ensures IsWalk(g, path + [n])
  {
    forall i: nat | i + 1 < |path + [n]| ensures ImportedAt(g, path + [n], i) {
      if i + 1 < |path| {
        assert ImportedAt(g, path, i);
      }
    }
  }

  lemma WalkFront(g: Graph, path: seq<string>)
    requires IsWalk(g, path) && |path| > 1
    ensures IsWalk(g, path[..|path| - 1])
    ensures path[|path| - 1] in Importers(g, path[|path| - 2])
  {
    var front := path[..|path| - 1];
    forall i: nat | i + 1 < |front| ensures ImportedAt(g, front, i) {
      assert ImportedAt(g, path, i);
    }
    assert ImportedAt(g, path, |path| - 2);
  }

  lemma {:induction false} RadiusToWalk(g: Graph, f: string, d: nat, n: string) returns (path: seq<string>)
    requires n in Radius(g, f, d)
    ensures IsWalk(g, path) && 1 < |path| <= d + 1 && path[0] == f && path[|path| - 1] == n
    decreases d
  {
    var m := ExpandedFrom(g, {f} + Radius(g, f, d - 1), n);
    if m in Radius(g, f, d - 1) {
      var front := RadiusToWalk(g, f, d - 1, m);
      WalkSnoc(g, front, n);
      path := front + [n];
    } else {
      assert IsWalk(g, [f]);
      WalkSnoc(g, [f], n);
      path := [f] + [n];
    }
  }

  lemma {:induction false} WalkToRadius(g: Graph, d: nat, path: seq<string>)
    requires IsWalk(g, path) && 1 < |path| <= d + 1
    ensures path[|path| - 1] in Radius(g, path[0], d)
    decreases d
  {
    WalkFront(g, path);
    if |path| > 2 {
      WalkToRadius(g, d - 1, path[..|path| - 1]);
    }
    InExpand(g, {path[0]} + Radius(g, path[0], d - 1), path[|path| - 2]);
  }

  /** The levels hold exactly the files with a chain of 1 to `d` imports. */
  lemma RadiusIsWithinSteps(g: Graph, f: string, d: nat, n: string)
    ensures n in Radius(g, f, d) <==> WithinSteps(g, f, d, n)
  {
    if n in Radius(g, f, d) {
      var path := RadiusToWalk(g, f, d, n);
    }
    if WithinSteps(g, f, d, n) {
      var path :| IsWalk(g, path) && 1 < |path| <= d + 1 && path[0] == f && path[|path| - 1] == n;
      WalkToRadius(g, d, path);
    }
  }

  // ----- Traversal

  /** `added` lists, once each, what `seen` holds beyond `seen0`. */
  ghost predicate Grown(seen0: set<string>, seen: set<string>, added: seq<string>) {
    seen0 <= seen && Distinct(added) && Elements(added) == seen - seen0
  }

  lemma OneAdded(seen0: set<string>, seen: set<string>, added: seq<string>, x: string)
    requires Grown(seen0, seen, added) && x !in seen
    ensures Grown(seen0, seen + {x}, added + [x])
  {
    assert x !in Elements(added) && Elements(added + [x]) == Elements(added) + {x};
  }

  /** Add the unseen entries of a list to the seen set, and list them. */
  method AddUnseen(list: seq<string>, seen0: set<string>) returns (seen: set<string>, added: seq<string>)
    ensures seen == seen0 + Elements(list)
    ensures Grown(seen0, seen, added)
  {
    seen, added := seen0, [];
    for i := 0 to |list|
      invariant seen == seen0 + Elements(list[..i])
      invariant Grown(seen0, seen, added)
    {
      assert list[..i + 1] == list[..i] + [list[i]];
      if list[i] !in seen {
        OneAdded(seen0, seen, added, list[i]);
        seen := seen + {list[i]};
        added := added + [list[i]];
      }
    }
    assert list[..|list|] == list;
  }

  ghost function Ball(g: Graph, f: string, d: nat): set<string> {
    {f} + Radius(g, f, d)
  }

  /** Queue entries for some files at depth `d`. */
  function Tag(s: seq<string>, d: nat): seq<(string, nat)> {
    if s == [] then [] else [(s[0], d)] + Tag(s[1..], d)
  }

  /** A breadth-first queue holds at most two adjacent levels. */
  ghost function TwoLevels(now: seq<string>, later: seq<string>, level: nat): seq<(string, nat)> {
    if now == [] then Tag(later, level + 1) else [(now[0], level)] + TwoLevels(now[1..], later, level)
  }

  lemma {:induction false} TagAppend(a: seq<string>, b: seq<string>, d: nat)
    ensures Tag(a + b, d) == Tag(a, d) + Tag(b, d)
  {
    if a == [] {
      assert a + b == b;
    } else {
      assert (a + b)[1..] == a[1..] + b;
      TagAppend(a[1..], b, d);
    }
  }

  lemma {:induction false} TwoLevelsAppend(now: seq<string>, later: seq<string>, added: seq<string>, level: nat)
    ensures TwoLevels(now, later, level) + Tag(added, level + 1) == TwoLevels(now, later + added, level)
  {
    if now == [] {
      TagAppend(later, added, level + 1);
    } else {
      TwoLevelsAppend(now[1..], later, added, level);
    }
  }

  lemma {:induction false} TwoLevelsShift(later: seq<string>, level: nat)
    ensures TwoLevels(later, [], level) == Tag(later, level)
  {
    if later == [] {
    } else {
      TwoLevelsShift(later[1..], level);
    }
  }

  /** Breadth-first bookkeeping at one level: `now` waits at depth `level`, `later` one deeper,
      everything nearer has been expanded. */
  ghost predicate AtLevel(g: Graph, f: string, depth: nat, level: nat, done: set<string>,
                          now: seq<string>, later: seq<string>, seen: set<string>) {
    && level <= depth
    && seen == done + Elements(now) + Elements(later)
    && done + Elements(now) == Ball(g, f, level)
    && (level == depth ==> later == [])
    && (level < depth ==> Expand(g, done) <= seen <= Ball(g, f, level + 1))
  }

  lemma BallGrows(g: Graph, f: string, d: nat)
    ensures Ball(g, f, d) <= Ball(g, f, d + 1)
    ensures Expand(g, Ball(g, f, d)) <= Ball(g, f, d + 1)
  {
    RadiusGrows(g, f, d);
  }

  lemma NextLevel(g: Graph, f: string, depth: nat, level: nat, done: set<string>, later: seq<string>, seen: set<string>)
    requires AtLevel(g, f, depth, level, done, [], later, seen) && later != []
    ensures AtLevel(g, f, depth, level + 1, done, later, [], seen)
  {
    BallGrows(g, f, level);
    BallGrows(g, f, level + 1);
    assert done == Ball(g, f, level) && Elements<string>([]) == {};
    assert Ball(g, f, level + 1) == {f} + Expand(g, Ball(g, f, level));
    assert f in Ball(g, f, level);
    assert seen == Ball(g, f, level + 1);
    assert Expand(g, done) <= seen;
  }

  lemma PopOne(g: Graph, f: string, depth: nat, level: nat, done: set<string>, now: seq<string>, later: seq<string>,
               seen: set<string>, seen': set<string>, added: seq<string>)
    requires AtLevel(g, f, depth, level, done, now, later, seen) && now != [] && level < depth
    requires seen' == seen + Elements(Importers(g, now[0])) && Grown(seen, seen', added)
    ensures AtLevel(g, f, depth, level, done + {now[0]}, now[1..], later + added, seen')
  {
    BallGrows(g, f, level);
    assert now == [now[0]] + now[1..];
    assert Elements(now) == {now[0]} + Elements(now[1..]);
    assert Elements(later + added) == Elements(later) + Elements(added);
    assert now[0] in Ball(g, f, level);
    ExpandUnion(g, done, {now[0]});
    ExpandOne(g, now[0]);
    ExpandMonotone(g, {now[0]}, Ball(g, f, level));
  }

  lemma SeenWithinBall(g: Graph, f: string, depth: nat, level: nat, done: set<string>, now: seq<string>,
                       later: seq<string>, seen: set<string>)
    requires AtLevel(g, f, depth, level, done, now, later, seen)
    ensures seen <= Ball(g, f, depth)
  {
    if level < depth {
      RadiusMonotone(g, f, level + 1, depth);
    } else {
      assert Elements<string>([]) == {};
    }
  }

  /** A level that adds nothing is the last one. */
  lemma {:induction false} NoNewLevel(g: Graph, f: string, d: nat, e: nat)
    requires Radius(g, f, d) == Radius(g, f, d + 1) && d <= e
    ensures Radius(g, f, e) == Radius(g, f, d)
    decreases e
  {
    if e <= d {
    } else {
      NoNewLevel(g, f, d, e - 1);
    }
  }


  /** A ball that is closed under imports does not grow any more. */
  lemma ClosedBall(g: Graph, f: string, c: nat, d: nat)
    requires c <= d && Expand(g, Ball(g, f, c)) <= Ball(g, f, c)
    ensures Ball(g, f, d) == Ball(g, f, c)
  {
    if c < d {
      BallCloses(g, f, c);
      NoNewLevel(g, f, c + 1, d);
    }
  }

  lemma BallCloses(g: Graph, f: string, c: nat)
    requires Expand(g, Ball(g, f, c)) <= Ball(g, f, c)
    ensures Ball(g, f, c + 1) == Ball(g, f, c)
    ensures Radius(g, f, c + 2) == Radius(g, f, c + 1)
  {
    BallGrows(g, f, c);
    assert Radius(g, f, c + 1) == Expand(g, Ball(g, f, c));
    assert Ball(g, f, c + 1) == Ball(g, f, c);
    assert Radius(g, f, c + 2) == Expand(g, Ball(g, f, c + 1));
  }

  lemma Exhausted(g: Graph, f: string, depth: nat, level: nat, done: set<string>, seen: set<string>)
    requires AtLevel(g, f, depth, level, done, [], [], seen)
    ensures seen == Ball(g, f, depth)
  {
    assert Elements<string>([]) == {};
    if level < depth {
      ClosedBall(g, f, level, depth);
    }
  }

  /** The results so far: every seen file but the seed, each once. */
  ghost predicate Found(seed: string, seen: set<string>, results: seq<string>) {
    seed in seen && Distinct(results) && Elements(results) == seen - {seed}
  }

  lemma FoundMore(seed: string, seen: set<string>, results: seq<string>, seen': set<string>, added: seq<string>)
    requires Found(seed, seen, results)
    requires Grown(seen, seen', added)
    ensures Found(seed, seen', results + added)
  {
    forall i, j | 0 <= i < |results| && 0 <= j < |added| ensures results[i] != added[j] {
      assert results[i] in Elements(results) && added[j] in Elements(added);
    }
    assert Elements(results + added) == Elements(results) + Elements(added);
  }

  lemma ShrinkingRest(ball: set<string>, seen: set<string>, seen': set<string>, added: seq<string>)
    requires seen <= seen' <= ball && Grown(seen, seen', added)
    ensures added == [] ==> seen' == seen
    ensures added != [] ==> ball - seen' < ball - seen
  {
    forall x | x in seen' && x !in seen ensures x in Elements(added) {
    }
    if added != [] {
      assert added[0] in Elements(added);
    }
  }

  /** The queue and the seen set in the middle of a traversal. */
  ghost predicate Searching(g: Graph, f: string, depth: nat, level: nat, done: set<string>, now: seq<string>,
                            later: seq<string>, queue: seq<(string, nat)>, seen: set<string>) {
    && AtLevel(g, f, depth, level, done, now, later, seen)
    && queue == TwoLevels(now, later, level)
  }

  /** The traversal has fewer files left to find, or as many and a shorter queue. */
  ghost predicate Closer(ball: set<string>, queue: seq<(string, nat)>, seen: set<string>, queue': seq<(string, nat)>,
                         seen': set<string>) {
    ball - seen' < ball - seen || (seen' == seen && |queue'| < |queue|)
  }

  lemma ExpandStep(g: Graph, f: string, depth: nat, level: nat, done: set<string>, now: seq<string>, later: seq<string>,
                   queue: seq<(string, nat)>, seen: set<string>, queue': seq<(string, nat)>, seen': set<string>,
                   added: seq<string>)
    requires Searching(g, f, depth, level, done, now, later, queue, seen) && now != [] && level < depth
    requires seen' == seen + Elements(Importers(g, now[0])) && Grown(seen, seen', added) &&
      queue' == queue[1..] + Tag(added, level + 1)
    ensures Searching(g, f, depth, level, done + {now[0]}, now[1..], later + added, queue', seen')
  {
    PopOne(g, f, depth, level, done, now, later, seen, seen', added);
    TwoLevelsAppend(now[1..], later, added, level);
  }

  lemma ExpandCloser(ball: set<string>, queue: seq<(string, nat)>, seen: set<string>,
                     queue': seq<(string, nat)>, seen': set<string>, added: seq<string>, d: nat)
    requires seen' <= ball && Grown(seen, seen', added) && queue != [] && queue' == queue[1..] + Tag(added, d)
    ensures Closer(ball, queue, seen, queue', seen')
  {
    ShrinkingRest(ball, seen, seen', added);
  }

  /** How far a traversal has come. */
  datatype Progress = Progress(level: nat, done: set<string>, now: seq<string>, later: seq<string>)

  ghost predicate InProgress(g: Graph, f: string, depth: nat, pr: Progress, queue: seq<(string, nat)>,
                             seen: set<string>) {
    Searching(g, f, depth, pr.level, pr.done, pr.now, pr.later, queue, seen)
  }

  /** One turn of the loop: the first entry leaves the queue, and unless it is at the depth limit
      its unseen importers join, one level deeper. */
  ghost predicate Popped(g: Graph, depth: nat, queue0: seq<(string, nat)>, seen0: set<string>,
                         queue: seq<(string, nat)>, seen: set<string>, added: seq<string>) {
    && queue0 != []
    && Grown(seen0, seen, added)
    && (if queue0[0].1 < depth then
          seen == seen0 + Elements(Importers(g, queue0[0].0)) && queue == queue0[1..] + Tag(added, queue0[0].1 + 1)
        else
          seen == seen0 && queue == queue0[1..])
  }

  method PopNode(g: Graph, depth: nat, queue0: seq<(string, nat)>, seen0: set<string>)
    returns (queue: seq<(string, nat)>, seen: set<string>, added: seq<string>)
    requires queue0 != []
    ensures Popped(g, depth, queue0, seen0, queue, seen, added)
  {
    var node, d := queue0[0].0, queue0[0].1;
    if d < depth {
      seen, added := AddUnseen(Importers(g, node), seen0);
      queue := queue0[1..] + Tag(added, d + 1);
    } else {
      queue, seen, added := queue0[1..], seen0, [];
    }
  }

  lemma Expanded(g: Graph, f: string, depth: nat, pr0: Progress, queue0: seq<(string, nat)>, seen0: set<string>,
                 queue: seq<(string, nat)>, seen: set<string>, added: seq<string>)
    returns (pr: Progress)
    requires InProgress(g, f, depth, pr0, queue0, seen0) && pr0.now != [] && pr0.level < depth
    requires Popped(g, depth, queue0, seen0, queue, seen, added)
    ensures InProgress(g, f, depth, pr, queue, seen) && queue == queue0[1..] + Tag(added, pr0.level + 1)
  {
    ExpandStep(g, f, depth, pr0.level, pr0.done, pr0.now, pr0.later, queue0, seen0, queue, seen, added);
    pr := Progress(pr0.level, pr0.done + {pr0.now[0]}, pr0.now[1..], pr0.later + added);
  }

  lemma Dropped(g: Graph, f: string, depth: nat, pr0: Progress, queue0: seq<(string, nat)>, seen0: set<string>,
                queue: seq<(string, nat)>, seen: set<string>, added: seq<string>)
    returns (pr: Progress)
    requires InProgress(g, f, depth, pr0, queue0, seen0) && pr0.now != [] && pr0.level == depth
    requires Popped(g, depth, queue0, seen0, queue, seen, added)
    ensures InProgress(g, f, depth, pr, queue, seen) && Closer(Ball(g, f, depth), queue0, seen0, queue, seen)
  {
    pr := Progress(depth, pr0.done + {pr0.now[0]}, pr0.now[1..], pr0.later);
  }

  lemma PoppedKeeps(g: Graph, f: string, depth: nat, pr0: Progress, queue0: seq<(string, nat)>, seen0: set<string>,
                    queue: seq<(string, nat)>, seen: set<string>, added: seq<string>)
    returns (pr: Progress)
    requires InProgress(g, f, depth, pr0, queue0, seen0) && pr0.now != []
    requires Popped(g, depth, queue0, seen0, queue, seen, added)
    ensures InProgress(g, f, depth, pr, queue, seen) && Closer(Ball(g, f, depth), queue0, seen0, queue, seen)
  {
    if pr0.level < depth {
      pr := Expanded(g, f, depth, pr0, queue0, seen0, queue, seen, added);
      SeenWithinBall(g, f, depth, pr.level, pr.done, pr.now, pr.later, seen);
      ExpandCloser(Ball(g, f, depth), queue0, seen0, queue, seen, added, pr0.level + 1);
    } else {
      pr := Dropped(g, f, depth, pr0, queue0, seen0, queue, seen, added);
    }
  }

  lemma ShiftLevel(g: Graph, f: string, depth: nat, level: nat, done: set<string>, later: seq<string>,
                   queue: seq<(string, nat)>, seen: set<string>)
    requires Searching(g, f, depth, level, done, [], later, queue, seen) && queue != []
    ensures later != [] && Searching(g, f, depth, level + 1, done, later, [], queue, seen)
  {
    TwoLevelsShift(later, level + 1);
    NextLevel(g, f, depth, level, done, later, seen);
  }

  lemma EndSearch(g: Graph, f: string, depth: nat, pr: Progress, seen: set<string>)
    requires InProgress(g, f, depth, pr, [], seen)
    ensures seen == Ball(g, f, depth)
  {
    Exhausted(g, f, depth, pr.level, pr.done, seen);
  }

  lemma Aligned(g: Graph, f: string, depth: nat, pr: Progress, queue: seq<(string, nat)>, seen: set<string>)
    returns (pr': Progress)
    requires InProgress(g, f, depth, pr, queue, seen) && queue != []
    ensures InProgress(g, f, depth, pr', queue, seen) && pr'.now != []
  {
    pr' := pr;
    if pr.now == [] {
      ShiftLevel(g, f, depth, pr.level, pr.done, pr.later, queue, seen);
      pr' := Progress(pr.level + 1, pr.done, pr.later, []);
    }
  }

  /** `traverse_incoming`: every file that reaches `seed` over 1 to `depth` imports, each once,
      never the seed itself. */
  method TraverseIncoming(g: Graph, seed: string, depth: nat) returns (results: seq<string>)
    ensures Distinct(results)
    ensures Elements(results) == Radius(g, seed, depth) - {seed}
  {
    if depth == 0 {
      return [];
    }
    var queue := [(seed, 0)];
    var seen := {seed};
    results := [];
    ghost var pr := Progress(0, {}, [seed], []);
    while queue != []
      invariant InProgress(g, seed, depth, pr, queue, seen)
      invariant Found(seed, seen, results)
      decreases Ball(g, seed, depth) - seen, |queue|
    {
      var queue', seen', added := PopNode(g, depth, queue, seen);
      ghost var mid := Aligned(g, seed, depth, pr, queue, seen);
      pr := PoppedKeeps(g, seed, depth, mid, queue, seen, queue', seen', added);
      FoundMore(seed, seen, results, seen', added);
      queue, seen, results := queue', seen', results + added;
    }
    EndSearch(g, seed, depth, pr, seen);
  }
}
