/** Blast radius: how many files import a file, directly or within three steps. */
module BlastRadius {
  import opened Common
  import opened ImportGraph

  const TRANSITIVE_DEPTH: nat := 3
  const TRANSITIVE_WEIGHT: real := 0.3

  datatype BlastTier = Isolated | Low | Moderate | High | Critical

  datatype Blast = Blast(direct: nat, transitive: nat, score: real, tier: BlastTier)

  function TierOf(direct: nat): BlastTier {
    if direct == 0 then Isolated
    else if direct <= 5 then Low
    else if direct <= 15 then Moderate
    else if direct <= 40 then High
    else Critical
  }

  function BlastOf(direct: nat, transitive: nat): Blast {
    Blast(direct, transitive, direct as real + transitive as real * TRANSITIVE_WEIGHT, TierOf(direct))
  }

  function Direct(g: Graph, f: string): set<string> {
    Elements(Importers(g, f))
  }

  /** What the single-file version reports for a traversal depth. */
  ghost function SingleBlast(g: Graph, f: string, depth: nat): Blast {
    BlastOf(|Direct(g, f) - {f}|, |Radius(g, f, depth) - Direct(g, f) - {f}|)
  }

  /** What the batch version reports. */
  ghost function BatchBlast(g: Graph, f: string, depth: nat): Blast {
    BlastOf(|Direct(g, f)|, |Radius(g, f, depth) - Direct(g, f)|)
  }

  /** Single-file version, from two traversals that never return the file itself. */
  method ComputeWithin(g: Graph, f: string, depth: nat) returns (r: Blast)
    ensures r == SingleBlast(g, f, depth)
  {
    var directList := TraverseIncoming(g, f, 1);
    var allList := TraverseIncoming(g, f, depth);
    var direct := Elements(directList);
    var transitive := Elements(allList) - direct;
    DirectRadius(g, f);
    assert transitive == Radius(g, f, depth) - Direct(g, f) - {f};
    r := BlastOf(|direct|, |transitive|);
  }

  method Compute(g: Graph, f: string) returns (r: Blast)
    ensures r == SingleBlast(g, f, TRANSITIVE_DEPTH)
  {
    r := ComputeWithin(g, f, TRANSITIVE_DEPTH);
  }

  // ----- The frontier loop

  lemma ExpandPrefix(g: Graph, list: seq<string>, i: nat)
    requires i < |list|
    ensures Expand(g, Elements(list[..i + 1])) == Expand(g, Elements(list[..i])) + Elements(Importers(g, list[i]))
  {
    assert list[..i + 1] == list[..i] + [list[i]];
    assert Elements(list[..i + 1]) == Elements(list[..i]) + {list[i]};
    ExpandUnion(g, Elements(list[..i]), {list[i]});
    ExpandOne(g, list[i]);
  }

  lemma NextGrows(seen0: set<string>, seen: set<string>, seen': set<string>, next: seq<string>, added: seq<string>)
    requires seen0 <= seen && Elements(next) == seen - seen0 && Grown(seen, seen', added)
    ensures Elements(next + added) == seen' - seen0
  {
    assert Elements(next + added) == Elements(next) + Elements(added);
  }

  /** Visit the importers of a whole frontier. */
  method ExpandFrontier(g: Graph, frontier: seq<string>, seen0: set<string>)
    returns (seen: set<string>, next: seq<string>)
    ensures seen == seen0 + Expand(g, Elements(frontier))
    ensures Elements(next) == seen - seen0
  {
    seen, next := seen0, [];
    assert frontier[..0] == [];
    assert Expand(g, Elements<string>([])) == {};
    for i := 0 to |frontier|
      invariant seen == seen0 + Expand(g, Elements(frontier[..i]))
      invariant Elements(next) == seen - seen0
    {
      ExpandPrefix(g, frontier, i);
      ghost var before := seen;
      var added;
      seen, added := AddUnseen(Importers(g, frontier[i]), seen);
      NextGrows(seen0, before, seen, next, added);
      next := next + added;
    }
    assert frontier[..|frontier|] == frontier;
  }

  /** Expanding the newest level alone completes the next radius. */
  lemma FrontierStep(g: Graph, f: string, d: nat, frontier: set<string>)
    requires d >= 1 && Radius(g, f, d) - Radius(g, f, d - 1) <= frontier <= Radius(g, f, d)
    ensures Radius(g, f, d) + Expand(g, frontier) == Radius(g, f, d + 1)
  {
    var inner, outer := Radius(g, f, d - 1), Radius(g, f, d);
    RadiusGrows(g, f, d - 1);
    assert {f} + outer == ({f} + inner) + frontier;
    ExpandUnion(g, {f} + inner, frontier);
  }

  ghost predicate Reached(g: Graph, f: string, d: nat, ancestors: set<string>, frontier: seq<string>)
    requires d >= 1
  {
    && ancestors == Radius(g, f, d)
    && Radius(g, f, d) - Radius(g, f, d - 1) <= Elements(frontier) <= Radius(g, f, d)
  }

  lemma ReachedNext(g: Graph, f: string, d: nat, ancestors: set<string>, frontier: seq<string>, wider: set<string>,
                    next: seq<string>)
    requires d >= 1 && Reached(g, f, d, ancestors, frontier)
    requires wider == ancestors + Expand(g, Elements(frontier)) && Elements(next) == wider - ancestors
    ensures Reached(g, f, d + 1, wider, next)
    ensures next == [] ==> Radius(g, f, d) == Radius(g, f, d + 1)
  {
    FrontierStep(g, f, d, Elements(frontier));
    forall x | x in wider && x !in ancestors ensures x in Elements(next) {
    }
  }

  /** The early-exit loop finds exactly the files within `depth` steps. */
  method Ancestors(g: Graph, f: string, depth: nat) returns (ancestors: set<string>)
    requires depth >= 1
    ensures ancestors == Radius(g, f, depth)
  {
    var frontier := Importers(g, f);
    ancestors := Elements(frontier);
    DirectRadius(g, f);
    for d := 1 to depth
      invariant Reached(g, f, d, ancestors, frontier)
    {
      var wider, next := ExpandFrontier(g, frontier, ancestors);
      ReachedNext(g, f, d, ancestors, frontier, wider, next);
      ancestors := wider;
      if next == [] {
        NoNewLevel(g, f, d, depth);
        return;
      }
      frontier := next;
    }
  }

  lemma SubsetDifference(a: set<string>, b: set<string>)
    requires a <= b
    ensures |b - a| == |b| - |a|
  {
    assert b == a + (b - a);
  }

  method BatchOne(g: Graph, f: string, depth: nat) returns (r: Blast)
    requires depth >= 1
    ensures r == BatchBlast(g, f, depth)
  {
    var direct := Elements(Importers(g, f));
    var ancestors := Ancestors(g, f, depth);
    DirectRadius(g, f);
    RadiusMonotone(g, f, 1, depth);
    SubsetDifference(direct, ancestors);
    r := BlastOf(|direct|, |ancestors| - |direct|);
  }

  /** `result` holds the value of each of the files, and nothing else. */
  ghost predicate Tabulates(value: string -> Blast, files: seq<string>, result: map<string, Blast>) {
    && result.Keys == Elements(files)
    && forall f :: f in files ==> result[f] == value(f)
  }

  ghost function BatchValue(g: Graph, depth: nat): string -> Blast {
    f => BatchBlast(g, f, depth)
  }

  lemma TabulatesNext(value: string -> Blast, files: seq<string>, i: nat, result: map<string, Blast>)
    requires i < |files| && Tabulates(value, files[..i], result)
    ensures Tabulates(value, files[..i + 1], result[files[i] := value(files[i])])
  {
    assert files[..i + 1] == files[..i] + [files[i]];
  }

  method BatchAll(g: Graph, files: seq<string>, depth: nat) returns (result: map<string, Blast>)
    requires depth >= 1
    ensures Tabulates(BatchValue(g, depth), files, result)
  {
    ghost var value := BatchValue(g, depth);
    result := map[];
    for i := 0 to |files|
      invariant Tabulates(value, files[..i], result)
    {
      TabulatesNext(value, files, i, result);
      var blast := BatchOne(g, files[i], depth);
      result := result[files[i] := blast];
    }
    assert files[..|files|] == files;
  }

  /** Batch version over every given file. */
  method ComputeAll(g: Graph, files: seq<string>) returns (result: map<string, Blast>)
    ensures Tabulates(BatchValue(g, TRANSITIVE_DEPTH), files, result)
  {
    result := BatchAll(g, files, TRANSITIVE_DEPTH);
  }

  /** At every depth the two versions agree exactly for files on no import cycle of at most
      that many steps; elsewhere the batch version counts the file itself once, as a direct
      importer when it imports itself and as a transitive one otherwise. */
  lemma VersionsAgree(g: Graph, f: string, depth: nat)
    requires depth >= 1
    ensures BatchBlast(g, f, depth) == SingleBlast(g, f, depth) <==> !WithinSteps(g, f, depth, f)
    ensures BatchBlast(g, f, depth).direct == SingleBlast(g, f, depth).direct + if f in Importers(g, f) then 1 else 0
    ensures BatchBlast(g, f, depth).transitive ==
      SingleBlast(g, f, depth).transitive + if WithinSteps(g, f, depth, f) && f !in Importers(g, f) then 1 else 0
  {
    RadiusIsWithinSteps(g, f, depth, f);
    DirectRadius(g, f);
    RadiusMonotone(g, f, 1, depth);
  }

  /** For example, two files that import each other: at depth 2 and beyond the batch version counts
      each as its own importer. */
  lemma TwoFileCycle(a: string, b: string, depth: nat)
    requires a != b && depth >= 2
    ensures var g := map[a := [b], b := [a]];
      BatchBlast(g, a, depth).transitive == SingleBlast(g, a, depth).transitive + 1
  {
    var g: Graph := map[a := [b], b := [a]];
    var path := [a, b, a];
    forall i: nat | i + 1 < |path| ensures ImportedAt(g, path, i) {
    }
    assert IsWalk(g, path) && path[|path| - 1] == a;
    VersionsAgree(g, a, depth);
  }

  // ----- The report in plain numbers

  /** The counts give the score and the tier: importers count 1, the others 0.3. */
  predicate Scored(b: Blast) {
    && b.score == b.direct as real + 0.3 * b.transitive as real
    && (b.tier == Isolated <==> b.direct == 0)
    && (b.tier == Low <==> 1 <= b.direct <= 5)
    && (b.tier == Moderate <==> 6 <= b.direct <= 15)
    && (b.tier == High <==> 16 <= b.direct <= 40)
    && (b.tier == Critical <==> 41 <= b.direct)
  }

  /** The single-file version counts the other files that import `f`, and those that reach it in
      two or three imports; the sets are all there are. */
  lemma SingleMeans(g: Graph, f: string, direct: set<string>, further: set<string>)
    requires forall n :: n in direct <==> f in g && n in g[f] && n != f
    requires forall n :: n in further <==> WithinSteps(g, f, 3, n) && n !in direct && n != f
    ensures var b := SingleBlast(g, f, TRANSITIVE_DEPTH);
      b.direct == |direct| && b.transitive == |further| && Scored(b)
  {
    SingleAt(g, f, TRANSITIVE_DEPTH, direct, further);
  }

  lemma SingleAt(g: Graph, f: string, depth: nat, direct: set<string>, further: set<string>)
    requires forall n :: n in direct <==> f in g && n in g[f] && n != f
    requires forall n :: n in further <==> WithinSteps(g, f, depth, n) && n !in direct && n != f
    ensures direct == Direct(g, f) - {f} && further == Radius(g, f, depth) - Direct(g, f) - {f}
  {
    forall n ensures n in Radius(g, f, depth) <==> WithinSteps(g, f, depth, n) {
      RadiusIsWithinSteps(g, f, depth, n);
    }
  }

  lemma BatchScored(g: Graph, f: string, depth: nat)
    ensures Scored(BatchBlast(g, f, depth))
  {
  }
}
