/** Staleness that cascades along imports: a bounded, decaying maximum over stale sources. */
module Propagation {
  import opened Common
  import opened ImportGraph

  const STALE_THRESHOLD: real := 0.4
  const TOMBSTONE_THRESHOLD: real := 0.8
  const PROPAGATION_D1: real := 0.15
  const PROPAGATION_D2: real := 0.05

  datatype Record = Record(key: string, staleness: real)

  datatype Propagated = Propagated(value: real, sourceCount: nat, primary: Option<string>)

  const NONE_YET: Propagated := Propagated(0.0, 0, None)

  type Cascade = map<string, Propagated>

  // ----- What each source contributes

  predicate IsSource(rec: Record) {
    STALE_THRESHOLD <= rec.staleness < TOMBSTONE_THRESHOLD
  }

  function StripPrefix(key: string): string {
    if "file:" <= key then key[5..] else key
  }

  /** Direct importers other than the file itself. */
  ghost function Near(g: Graph, n: string): set<string> {
    Elements(Importers(g, n)) - {n}
  }

  /** The direct importers of `n` through which `t` imports `n` at distance 2. */
  ghost function Via(g: Graph, n: string, t: string): set<string> {
    set m | m in Near(g, n) && t in Near(g, m)
  }

  /** Number of contributing import paths from a record's file to `t`: one at distance 1, or
      every intermediate file at distance 2. */
  ghost function Paths(g: Graph, rec: Record, t: string): nat {
    if !IsSource(rec) then 0
    else if t in Near(g, rec.key) then 1
    else if t == rec.key then 0
    else |Via(g, rec.key, t)|
  }

  ghost function Bump(g: Graph, rec: Record, t: string): real {
    rec.staleness * if t in Near(g, rec.key) then PROPAGATION_D1 else PROPAGATION_D2
  }

  ghost function TotalPaths(g: Graph, recs: seq<Record>, t: string): nat {
    if recs == [] then 0 else TotalPaths(g, recs[..|recs| - 1], t) + Paths(g, recs[|recs| - 1], t)
  }

  /** Record `k` is the first, in record order, to make the highest contribution to `t`. */
  ghost predicate FirstHighest(g: Graph, recs: seq<Record>, t: string, k: nat) {
    && k < |recs| && Paths(g, recs[k], t) > 0
    && (forall j :: 0 <= j < |recs| && Paths(g, recs[j], t) > 0 ==> Bump(g, recs[j], t) <= Bump(g, recs[k], t))
    && (forall j :: 0 <= j < k && Paths(g, recs[j], t) > 0 ==> Bump(g, recs[j], t) < Bump(g, recs[k], t))
  }

  ghost predicate IsEntry(g: Graph, recs: seq<Record>, t: string, e: Propagated) {
    && e.sourceCount == TotalPaths(g, recs, t)
    && exists k: nat :: FirstHighest(g, recs, t, k)
         && e.value == Bump(g, recs[k], t) && e.primary == Some(StripPrefix(recs[k].key))
  }

  // ----- Applying contributions

  function Entry(c: Cascade, t: string): Propagated {
    if t in c then c[t] else NONE_YET
  }

  /** One contribution: count it, and take it over when it is higher. */
  function Applied(e: Propagated, bump: real, source: string): Propagated {
    if bump > e.value then Propagated(bump, e.sourceCount + 1, Some(source))
    else e.(sourceCount := e.sourceCount + 1)
  }

  function Apply(c: Cascade, t: string, bump: real, source: string): Cascade {
    c[t := Applied(Entry(c, t), bump, source)]
  }

  /** The same contribution `n` times. */
  ghost function AppliedTimes(e: Propagated, n: nat, bump: real, source: string): Propagated {
    if n == 0 then e
    else if bump > e.value then Propagated(bump, e.sourceCount + n, Some(source))
    else e.(sourceCount := e.sourceCount + n)
  }

  ghost predicate Counted(c: Cascade) {
    forall t :: t in c ==> c[t].sourceCount > 0
  }

  /** Apply one contribution to every listed file that passes the filter. */
  method ApplyAll(c0: Cascade, targets: seq<string>, skip: set<string>, bump: real, source: string) returns (c: Cascade)
    requires Distinct(targets) && Counted(c0)
    ensures Counted(c)
    ensures forall t :: Entry(c, t) == AppliedTimes(Entry(c0, t), One(t in targets && t !in skip), bump, source)
  {
    c := c0;
    for i := 0 to |targets|
      invariant Counted(c)
      invariant forall t ::
        Entry(c, t) == AppliedTimes(Entry(c0, t), One(t in targets[..i] && t !in skip), bump, source)
    {
      assert targets[..i + 1] == targets[..i] + [targets[i]];
      assert targets[i] !in targets[..i];
      if targets[i] !in skip {
        c := Apply(c, targets[i], bump, source);
      }
    }
    assert targets[..|targets|] == targets;
  }

  /** How many of the given files `t` imports, itself excluded. */
  ghost function Hops(g: Graph, ms: seq<string>, t: string): nat {
    if ms == [] then 0 else Hops(g, ms[..|ms| - 1], t) + One(t in Near(g, ms[|ms| - 1]))
  }

  ghost function HopSet(g: Graph, ms: seq<string>, t: string): set<string> {
    set m | m in ms && t in Near(g, m)
  }

  lemma HopSetSnoc(g: Graph, ms: seq<string>, m: string, t: string)
    requires m !in ms
    ensures |HopSet(g, ms + [m], t)| == |HopSet(g, ms, t)| + One(t in Near(g, m))
  {
    if t in Near(g, m) {
      assert HopSet(g, ms + [m], t) == HopSet(g, ms, t) + {m};
    } else {
      assert HopSet(g, ms + [m], t) == HopSet(g, ms, t);
    }
  }

  lemma {:induction false} HopsCount(g: Graph, ms: seq<string>, t: string)
    requires Distinct(ms)
    ensures Hops(g, ms, t) == |HopSet(g, ms, t)|
  {
    if ms == [] {
      assert HopSet(g, ms, t) == {};
    } else {
      var n := |ms| - 1;
      HopsCount(g, ms[..n], t);
      HopSetSnoc(g, ms[..n], ms[n], t);
      assert ms == ms[..n] + [ms[n]];
    }
  }

  method NeighborsIncoming(g: Graph, n: string) returns (r: seq<string>)
    ensures Distinct(r) && Elements(r) == Near(g, n)
  {
    r := TraverseIncoming(g, n, 1);
    DirectRadius(g, n);
  }

  lemma AppliedTwice(e: Propagated, m: nat, n: nat, bump: real, source: string)
    ensures AppliedTimes(AppliedTimes(e, m, bump, source), n, bump, source) == AppliedTimes(e, m + n, bump, source)
  {
  }

  /** Second-order importers: every importer of every direct importer, except the source and
      the direct importers. */
  method ApplySecond(g: Graph, c0: Cascade, near: seq<string>, skip: set<string>, bump: real, source: string)
    returns (c: Cascade)
    requires Counted(c0)
    ensures Counted(c)
    ensures forall t ::
      Entry(c, t) == AppliedTimes(Entry(c0, t), if t in skip then 0 else Hops(g, near, t), bump, source)
  {
    c := c0;
    for i := 0 to |near|
      invariant Counted(c)
      invariant forall t ::
        Entry(c, t) == AppliedTimes(Entry(c0, t), if t in skip then 0 else Hops(g, near[..i], t), bump, source)
    {
      var second := NeighborsIncoming(g, near[i]);
      ghost var before := c;
      c := ApplyAll(c, second, skip, bump, source);
      assert near[..i + 1][..i] == near[..i];
      forall t
        ensures Entry(c, t) ==
          AppliedTimes(Entry(c0, t), if t in skip then 0 else Hops(g, near[..i + 1], t), bump, source)
      {
        assert t in second <==> t in Elements(second);
        if t !in skip {
          AppliedTwice(Entry(c0, t), Hops(g, near[..i], t), One(t in second), bump, source);
        }
      }
    }
    assert near[..|near|] == near;
  }

  lemma HopsAreVia(g: Graph, n: string, near: seq<string>, t: string)
    requires Distinct(near) && Elements(near) == Near(g, n)
    ensures Hops(g, near, t) == |Via(g, n, t)|
  {
    HopsCount(g, near, t);
    forall m ensures m in near <==> m in Near(g, n) {
      assert m in near <==> m in Elements(near);
    }
    assert HopSet(g, near, t) == Via(g, n, t);
  }

  /** How often each of the two rounds of a source applies to `t`: never both. */
  lemma PathsSplit(g: Graph, rec: Record, near: seq<string>, t: string, first: nat, second: nat)
    requires IsSource(rec) && Distinct(near) && Elements(near) == Near(g, rec.key)
    requires first == One(t in near) && second == if t in Elements(near) + {rec.key} then 0 else Hops(g, near, t)
    ensures first > 0 <==> t in Near(g, rec.key)
    ensures Paths(g, rec, t) == first + second && (first == 0 || second == 0)
  {
    assert t in near <==> t in Elements(near);
    if t !in near {
      HopsAreVia(g, rec.key, near, t);
    }
  }

  lemma OneRoundOnly(e: Propagated, a: nat, b: nat, near: real, far: real, source: string)
    requires a == 0 || b == 0
    ensures AppliedTimes(AppliedTimes(e, a, near, source), b, far, source) ==
      AppliedTimes(e, a + b, if a > 0 then near else far, source)
  {
  }

  /** Distance-1 and distance-2 contributions of one source never meet at one file. */
  lemma TwoRounds(g: Graph, rec: Record, t: string, e: Propagated, first: nat, second: nat, source: string)
    requires first > 0 <==> t in Near(g, rec.key)
    requires Paths(g, rec, t) == first + second && (first == 0 || second == 0)
    ensures var mid := AppliedTimes(e, first, rec.staleness * PROPAGATION_D1, source);
      AppliedTimes(mid, second, rec.staleness * PROPAGATION_D2, source)
      == AppliedTimes(e, Paths(g, rec, t), Bump(g, rec, t), source)
  {
    OneRoundOnly(e, first, second, rec.staleness * PROPAGATION_D1, rec.staleness * PROPAGATION_D2, source);
  }

  /** All contributions of one record. */
  method ApplySource(g: Graph, c0: Cascade, rec: Record) returns (c: Cascade)
    requires Counted(c0)
    ensures Counted(c)
    ensures forall t ::
      Entry(c, t) == AppliedTimes(Entry(c0, t), Paths(g, rec, t), Bump(g, rec, t), StripPrefix(rec.key))
  {
    c := c0;
    if rec.staleness < STALE_THRESHOLD || rec.staleness >= TOMBSTONE_THRESHOLD {
      return;
    }
    var source := StripPrefix(rec.key);
    var near := NeighborsIncoming(g, rec.key);
    c := ApplyAll(c, near, {}, rec.staleness * PROPAGATION_D1, source);
    c := ApplySecond(g, c, near, Elements(near) + {rec.key}, rec.staleness * PROPAGATION_D2, source);
    forall t ensures Entry(c, t) == AppliedTimes(Entry(c0, t), Paths(g, rec, t), Bump(g, rec, t), source) {
      var first, second := One(t in near), if t in Elements(near) + {rec.key} then 0 else Hops(g, near, t);
      PathsSplit(g, rec, near, t, first, second);
      TwoRounds(g, rec, t, Entry(c0, t), first, second, source);
    }
  }

  // ----- The whole pass

  /** The entry after one more record. */
  ghost function After(g: Graph, e: Propagated, rec: Record, t: string): Propagated {
    AppliedTimes(e, Paths(g, rec, t), Bump(g, rec, t), StripPrefix(rec.key))
  }

  /** The records' contributions to `t`, one after the other. */
  ghost function Folded(g: Graph, recs: seq<Record>, t: string): Propagated {
    if recs == [] then NONE_YET
    else After(g, Folded(g, recs[..|recs| - 1], t), recs[|recs| - 1], t)
  }

  lemma FoldedSnoc(g: Graph, recs: seq<Record>, t: string, rec: Record)
    ensures Folded(g, recs + [rec], t) == After(g, Folded(g, recs, t), rec, t)
  {
    assert (recs + [rec])[..|recs|] == recs;
  }

  lemma KeepFirstHighest(g: Graph, recs: seq<Record>, rec: Record, t: string, k: nat)
    requires FirstHighest(g, recs, t, k)
    requires Paths(g, rec, t) == 0 || Bump(g, rec, t) <= Bump(g, recs[k], t)
    ensures FirstHighest(g, recs + [rec], t, k)
  {
  }

  lemma TakeFirstHighest(g: Graph, recs: seq<Record>, rec: Record, t: string)
    requires Paths(g, rec, t) > 0
    requires forall j :: 0 <= j < |recs| && Paths(g, recs[j], t) > 0 ==> Bump(g, recs[j], t) < Bump(g, rec, t)
    ensures FirstHighest(g, recs + [rec], t, |recs|)
  {
  }

  lemma BumpPositive(g: Graph, rec: Record, t: string)
    requires IsSource(rec)
    ensures 0.02 <= Bump(g, rec, t) < 0.12
  {
  }

  ghost predicate NoneContributes(g: Graph, recs: seq<Record>, t: string) {
    forall j :: 0 <= j < |recs| ==> Paths(g, recs[j], t) == 0
  }

  lemma TotalPathsSnoc(g: Graph, recs: seq<Record>, rec: Record, t: string)
    ensures TotalPaths(g, recs + [rec], t) == TotalPaths(g, recs, t) + Paths(g, rec, t)
  {
    assert (recs + [rec])[..|recs|] == recs;
  }

  /** The first contribution to a file makes its entry. */
  lemma FirstContribution(g: Graph, recs: seq<Record>, rec: Record, t: string)
    requires NoneContributes(g, recs, t) && TotalPaths(g, recs, t) == 0 && Paths(g, rec, t) > 0
    ensures IsEntry(g, recs + [rec], t, After(g, NONE_YET, rec, t))
  {
    BumpPositive(g, rec, t);
    TakeFirstHighest(g, recs, rec, t);
    TotalPathsSnoc(g, recs, rec, t);
    assert (recs + [rec])[|recs|] == rec;
  }

  /** A further record keeps the entry or takes it over. */
  lemma FurtherContribution(g: Graph, recs: seq<Record>, rec: Record, t: string, e: Propagated)
    requires IsEntry(g, recs, t, e)
    ensures IsEntry(g, recs + [rec], t, After(g, e, rec, t))
  {
    TotalPathsSnoc(g, recs, rec, t);
    var k: nat :| FirstHighest(g, recs, t, k) && e.value == Bump(g, recs[k], t) &&
      e.primary == Some(StripPrefix(recs[k].key));
    if Paths(g, rec, t) > 0 && Bump(g, rec, t) > e.value {
      TakeFirstHighest(g, recs, rec, t);
      assert (recs + [rec])[|recs|] == rec;
    } else {
      KeepFirstHighest(g, recs, rec, t, k);
      assert (recs + [rec])[k] == recs[k];
    }
  }

  /** Folding counts every path and keeps the first highest contribution. */
  lemma {:induction false} FoldedIsEntry(g: Graph, recs: seq<Record>, t: string)
    ensures Folded(g, recs, t).sourceCount == TotalPaths(g, recs, t)
    ensures TotalPaths(g, recs, t) == 0 ==> Folded(g, recs, t) == NONE_YET && NoneContributes(g, recs, t)
    ensures TotalPaths(g, recs, t) > 0 ==> IsEntry(g, recs, t, Folded(g, recs, t))
  {
    if recs == [] {
    } else {
      var front, rec := recs[..|recs| - 1], recs[|recs| - 1];
      assert recs == front + [rec];
      FoldedIsEntry(g, front, t);
      FoldedSnoc(g, front, t, rec);
      TotalPathsSnoc(g, front, rec, t);
      if TotalPaths(g, front, t) > 0 {
        FurtherContribution(g, front, rec, t, Folded(g, front, t));
      } else if Paths(g, rec, t) > 0 {
        FirstContribution(g, front, rec, t);
      }
    }
  }

  /** The cascade: an entry exactly for the files with a contributing path; its value is the
      highest contribution, its primary source the first record that makes it, and its source
      count the number of contributing paths. */
  method ComputePropagation(g: Graph, recs: seq<Record>) returns (c: Cascade)
    ensures forall t :: t in c <==> TotalPaths(g, recs, t) > 0
    ensures forall t :: t in c ==> IsEntry(g, recs, t, c[t])
  {
    c := map[];
    for i := 0 to |recs|
      invariant Counted(c)
      invariant forall t :: Entry(c, t) == Folded(g, recs[..i], t)
    {
      assert recs[..i + 1] == recs[..i] + [recs[i]];
      c := ApplySource(g, c, recs[i]);
      forall t ensures Entry(c, t) == Folded(g, recs[..i + 1], t) {
        FoldedSnoc(g, recs[..i], t, recs[i]);
      }
    }
    assert recs[..|recs|] == recs;
    forall t ensures t in c <==> TotalPaths(g, recs, t) > 0 ensures t in c ==> IsEntry(g, recs, t, c[t]) {
      FoldedIsEntry(g, recs, t);
      assert Entry(c, t) == Folded(g, recs, t);
    }
  }

  // ----- Theorems

  /** Every propagated value lies in [0.02, 0.12), so nothing inherits staleness that would
      make it a source in turn. */
  lemma ValueRange(g: Graph, recs: seq<Record>, t: string, e: Propagated)
    requires IsEntry(g, recs, t, e)
    ensures 0.02 <= e.value < 0.12 < STALE_THRESHOLD
  {
    var k: nat :| FirstHighest(g, recs, t, k) && e.value == Bump(g, recs[k], t);
    BumpPositive(g, recs[k], t);
  }

  lemma {:induction false} TotalPathsSplit(g: Graph, a: seq<Record>, b: seq<Record>, t: string)
    ensures TotalPaths(g, a + b, t) == TotalPaths(g, a, t) + TotalPaths(g, b, t)
    decreases |b|
  {
    if b == [] {
      assert a + b == a;
    } else {
      var n := |b| - 1;
      assert (a + b)[..|a + b| - 1] == a + b[..n];
      TotalPathsSplit(g, a, b[..n], t);
    }
  }

  lemma TotalPathsWithout(g: Graph, b: seq<Record>, j: nat, t: string)
    requires j < |b|
    ensures TotalPaths(g, b, t) == TotalPaths(g, b[..j] + b[j + 1..], t) + Paths(g, b[j], t)
  {
    TotalPathsSplit(g, b[..j], b[j + 1..], t);
    assert b == (b[..j] + [b[j]]) + b[j + 1..];
    TotalPathsSplit(g, b[..j] + [b[j]], b[j + 1..], t);
    assert (b[..j] + [b[j]])[..j] == b[..j];
  }

  lemma WithoutOne(a: seq<Record>, b: seq<Record>) returns (j: nat)
    requires multiset(a) == multiset(b) && a != []
    ensures j < |b| && b[j] == a[|a| - 1]
    ensures multiset(b[..j] + b[j + 1..]) == multiset(a[..|a| - 1])
  {
    var n := |a| - 1;
    var x := a[n];
    assert a == a[..n] + [x];
    assert x in multiset(b);
    j :| 0 <= j < |b| && b[j] == x;
    assert b == b[..j] + [x] + b[j + 1..];
    assert multiset(b[..j] + b[j + 1..]) == multiset(b) - multiset{x};
    assert multiset(a[..n]) == multiset(a) - multiset{x};
  }

  lemma {:induction false} TotalPathsRearranged(g: Graph, a: seq<Record>, b: seq<Record>, t: string)
    requires multiset(a) == multiset(b)
    ensures TotalPaths(g, a, t) == TotalPaths(g, b, t)
    decreases |a|
  {
    if a == [] {
      assert |multiset(b)| == 0;
      assert b == [];
    } else {
      var j := WithoutOne(a, b);
      TotalPathsRearranged(g, a[..|a| - 1], b[..j] + b[j + 1..], t);
      TotalPathsWithout(g, b, j, t);
    }
  }

  lemma ValueAtMost(g: Graph, a: seq<Record>, b: seq<Record>, t: string, d: Propagated, e: Propagated)
    requires multiset(a) == multiset(b) && IsEntry(g, a, t, d) && IsEntry(g, b, t, e)
    ensures d.value <= e.value
  {
    var k: nat :| FirstHighest(g, a, t, k) && d.value == Bump(g, a[k], t);
    assert a[k] in multiset(b);
    var j :| 0 <= j < |b| && b[j] == a[k];
  }

  /** Record order does not change any value or source count. */
  lemma OrderDoesNotMatter(g: Graph, a: seq<Record>, b: seq<Record>, t: string, d: Propagated, e: Propagated)
    requires multiset(a) == multiset(b) && IsEntry(g, a, t, d) && IsEntry(g, b, t, e)
    ensures d.value == e.value && d.sourceCount == e.sourceCount
  {
    ValueAtMost(g, a, b, t, d, e);
    ValueAtMost(g, b, a, t, e, d);
    TotalPathsRearranged(g, a, b, t);
  }

  /** Number of entries of the record list that contribute to `t`. */
  ghost function Contributors(g: Graph, recs: seq<Record>, t: string): nat {
    if recs == [] then 0 else Contributors(g, recs[..|recs| - 1], t) + One(Paths(g, recs[|recs| - 1], t) > 0)
  }

  /** The source count is the number of contributing records exactly when no source reaches
      `t` at distance 2 through more than one direct importer. */
  lemma {:induction false} SourceCountIsPaths(g: Graph, recs: seq<Record>, t: string)
    ensures Contributors(g, recs, t) <= TotalPaths(g, recs, t)
    ensures TotalPaths(g, recs, t) == Contributors(g, recs, t) <==>
      forall j :: 0 <= j < |recs| ==> Paths(g, recs[j], t) <= 1
  {
    if recs == [] {
    } else {
      var n := |recs| - 1;
      SourceCountIsPaths(g, recs[..n], t);
      assert recs == recs[..n] + [recs[n]];
      assert forall j :: 0 <= j < n ==> recs[..n][j] == recs[j];
    }
  }

  /** For example, a diamond: `t` imports two files that import the one stale source, which makes
      one contributing record and a source count of two. */
  lemma Diamond(s: string, x: string, y: string, t: string)
    requires s != x && s != y && s != t && x != y && x != t && y != t
    ensures var g := map[s := [x, y], x := [t], y := [t]];
      Contributors(g, [Record(s, 0.5)], t) == 1 && TotalPaths(g, [Record(s, 0.5)], t) == 2
  {
    var g: Graph := map[s := [x, y], x := [t], y := [t]];
    var rec := Record(s, 0.5);
    assert Near(g, s) == {x, y} && Near(g, x) == {t} && Near(g, y) == {t};
    assert Via(g, s, t) == {x, y};
    assert Paths(g, rec, t) == 2;
    assert [rec][..0] == [];
  }

  // ----- The cascade in plain numbers

  /** `t` imports `n` and is another file. */
  ghost predicate Imports(g: Graph, t: string, n: string) {
    n in g && t in g[n] && t != n
  }

  /** `t` imports a file that imports `n`. */
  ghost predicate ImportsVia(g: Graph, t: string, n: string, m: string) {
    Imports(g, m, n) && Imports(g, t, m)
  }

  /** What a record adds to `t`, if anything: 0.15 of its staleness when `t` imports its file, 0.05
      of it when `t` only imports an importer; and only from 0.4 up to but not including 0.8. */
  ghost predicate Adds(g: Graph, rec: Record, t: string, value: real) {
    && 0.4 <= rec.staleness && rec.staleness < 0.8 && t != rec.key
    && (if Imports(g, t, rec.key) then value == 0.15 * rec.staleness
        else value == 0.05 * rec.staleness && exists m :: ImportsVia(g, t, rec.key, m))
  }

  lemma NearMeans(g: Graph, n: string, t: string)
    ensures t in Near(g, n) <==> Imports(g, t, n)
  {
  }

  lemma ViaMeans(g: Graph, n: string, t: string)
    ensures Via(g, n, t) == set m | m in Near(g, n) && ImportsVia(g, t, n, m)
    ensures |Via(g, n, t)| > 0 <==> exists m :: ImportsVia(g, t, n, m)
  {
    forall m ensures m in Via(g, n, t) <==> ImportsVia(g, t, n, m) {
      NearMeans(g, n, m);
      NearMeans(g, m, t);
    }
    if m :| ImportsVia(g, t, n, m) {
      assert m in Via(g, n, t);
    }
    if |Via(g, n, t)| > 0 {
      var m :| m in Via(g, n, t);
    }
  }

  lemma AddsMeans(g: Graph, rec: Record, t: string, value: real)
    ensures Adds(g, rec, t, value) <==> Paths(g, rec, t) > 0 && value == Bump(g, rec, t)
  {
    NearMeans(g, rec.key, t);
    ViaMeans(g, rec.key, t);
  }

  /** The entry names the file of this key as its primary source. */
  predicate Names(e: Propagated, source: string, key: string) {
    e.primary == Some(source) && (key == "file:" + source || (key == source && !("file:" <= key)))
  }

  /** An entry holds the highest value that any record adds, and names the file of one that does. */
  lemma EntryMeans(g: Graph, recs: seq<Record>, t: string, e: Propagated)
    requires IsEntry(g, recs, t, e)
    ensures forall rec, value :: rec in recs && Adds(g, rec, t, value) ==> value <= e.value
    ensures exists rec, source :: rec in recs && Adds(g, rec, t, e.value) && Names(e, source, rec.key)
  {
    var k: nat :| FirstHighest(g, recs, t, k) && e.value == Bump(g, recs[k], t) &&
      e.primary == Some(StripPrefix(recs[k].key));
    forall rec, value | rec in recs && Adds(g, rec, t, value) ensures value <= e.value {
      AddsMeans(g, rec, t, value);
      var j :| 0 <= j < |recs| && recs[j] == rec;
    }
    AddsMeans(g, recs[k], t, e.value);
    SourceMeans(recs[k].key);
    assert recs[k] in recs && Names(e, StripPrefix(recs[k].key), recs[k].key);
  }

  lemma SourceMeans(key: string)
    ensures key == "file:" + StripPrefix(key) || (key == StripPrefix(key) && !("file:" <= key))
  {
    if "file:" <= key {
      assert key == key[..5] + key[5..];
    }
  }

  /** For example, a file that imports a file of staleness 0.6 inherits 0.09 of it. */
  lemma DirectImporter(s: string, t: string, c: Propagated)
    requires s != t && IsEntry(map[s := [t]], [Record(s, 0.6)], t, c)
    ensures c.value == 0.09
  {
    var g: Graph := map[s := [t]];
    var recs := [Record(s, 0.6)];
    assert recs[0] in recs && Adds(g, recs[0], t, 0.09);
    EntryMeans(g, recs, t, c);
  }
}
