/** The mined totals once more in plain words: which deltas list a file, which commits are reverts,
    who the author is, and which numbers decide. */
module HistoryLaws {
  import opened Common
  import opened Ordering
  import opened HistorySpec
  import opened GitHistory
  import opened Clusters
  import opened HistoryTheorems

  // ----- Which deltas list a file

  /** `to` is `from` with a slash for every backslash. */
  ghost predicate Slashed(from: string, to: string) {
    |to| == |from| && forall i :: 0 <= i < |from| ==> to[i] == if from[i] == '\\' then '/' else from[i]
  }

  /** The delta lists the walked file `p`: a deletion by its old path, any other change by its new one. */
  ghost predicate Lists(walked: set<string>, d: Delta, p: string) {
    && p in walked
    && exists raw :: (if d.status == Deleted then d.oldPath else d.newPath) == Some(raw) && Slashed(raw, p)
  }

  /** How many deltas of a list list `p`. */
  ghost function Listings(walked: set<string>, deltas: seq<Delta>, p: string): nat {
    |set i: nat | i < |deltas| && Lists(walked, deltas[i], p)|
  }

  lemma SlashesSlashed(raw: string, p: string)
    ensures Slashes(raw) == p <==> Slashed(raw, p)
  {
  }

  lemma PathOfLists(walked: set<string>, d: Delta, p: string)
    ensures Occurrences(PathOf(walked, d), p) == One(Lists(walked, d, p))
  {
    var raw := if d.status == Deleted then d.oldPath else d.newPath;
    if raw.Some? {
      SlashesSlashed(raw.value, p);
    }
    forall x: string ensures Occurrences([x], p) == One(x == p) {
      assert [x][1..] == [];
    }
  }

  lemma ListingsSnoc(walked: set<string>, deltas: seq<Delta>, d: Delta, p: string)
    ensures Listings(walked, deltas + [d], p) == Listings(walked, deltas, p) + One(Lists(walked, d, p))
  {
    var more := deltas + [d];
    var old_ := set i: nat | i < |deltas| && Lists(walked, deltas[i], p);
    var new_ := set i: nat | i < |more| && Lists(walked, more[i], p);
    assert forall i: nat :: i < |deltas| ==> more[i] == deltas[i];
    if Lists(walked, d, p) {
      assert new_ == old_ + {|deltas|};
    } else {
      assert new_ == old_;
    }
  }

  lemma ListedByNone(walked: set<string>, deltas: seq<Delta>, p: string)
    requires forall i: nat :: i < |deltas| ==> !Lists(walked, deltas[i], p)
    ensures Listings(walked, deltas, p) == 0
  {
    assert (set i: nat | i < |deltas| && Lists(walked, deltas[i], p)) == {};
  }

  lemma {:induction false} TouchedListings(walked: set<string>, deltas: seq<Delta>, p: string)
    ensures Occurrences(Touched(walked, deltas), p) == Listings(walked, deltas, p)
  {
    if deltas == [] {
      ListedByNone(walked, deltas, p);
    } else {
      var n := |deltas| - 1;
      TouchedListings(walked, deltas[..n], p);
      PathOfLists(walked, deltas[n], p);
      OccurrencesAppend(Touched(walked, deltas[..n]), PathOf(walked, deltas[n]), p);
      ListingsSnoc(walked, deltas[..n], deltas[n], p);
      assert deltas == deltas[..n] + [deltas[n]];
    }
  }

  // ----- Totals over the commits of a kind

  /** How often the commits of a kind list `p`. */
  ghost function Total(walked: set<string>, w: seq<Commit>, p: string, kind: Commit -> bool): nat {
    if w == [] then 0
    else
      var n := |w| - 1;
      Total(walked, w[..n], p, kind) + if kind(w[n]) then Listings(walked, w[n].deltas, p) else 0
  }

  ghost function Any(): Commit -> bool {
    (c: Commit) => true
  }

  /** Commits whose message starts with "Revert ". */
  ghost function Reverting(): Commit -> bool {
    (c: Commit) => exists t :: c.message == Some("Revert " + t)
  }

  /** Commits of this committer; one without a readable name is "unknown". */
  ghost function By(author: string): Commit -> bool {
    (c: Commit) => c.committer == Some(author) || (c.committer == None && author == "unknown")
  }

  lemma RevertingMeans(c: Commit)
    ensures IsRevert(c) <==> Reverting()(c)
  {
    if IsRevert(c) {
      assert c.message.value == "Revert " + c.message.value[|"Revert "|..];
    }
  }

  lemma {:induction false} TotalsMean(walked: set<string>, w: seq<Commit>, p: string, author: string)
    ensures Freq(walked, w, p) == Total(walked, w, p, Any())
    ensures Reverts(walked, w, p) == Total(walked, w, p, Reverting())
    ensures AuthorFreq(walked, w, p, author) == Total(walked, w, p, By(author))
  {
    if w == [] {
    } else {
      var n := |w| - 1;
      TotalsMean(walked, w[..n], p, author);
      TouchedListings(walked, w[n].deltas, p);
      RevertingMeans(w[n]);
    }
  }

  /** The report holds, for every file with a total, that total: over all commits of the window,
      over those whose message starts with "Revert ", and over those of each committer. */
  lemma ReportedTotals(walked: set<string>, w: seq<Commit>, r: GitSignals, p: string, author: string)
    requires IsReport(walked, w, r)
    ensures Get(r.changeFrequency, p) == Total(walked, w, p, Any())
    ensures Get(r.revertCounts, p) == Total(walked, w, p, Reverting())
    ensures p in r.changeFrequency <==> Total(walked, w, p, Any()) > 0
    ensures p in r.authorCounts <==> Total(walked, w, p, Any()) > 0
    ensures p in r.authorCounts ==> Get(r.authorCounts[p], author) == Total(walked, w, p, By(author))
  {
    TotalsMean(walked, w, p, author);
  }

  // ----- Last author

  /** Commit `k` is the first of the window that lists `p`. */
  ghost predicate FirstListing(walked: set<string>, w: seq<Commit>, p: string, k: nat) {
    && k < |w| && Listings(walked, w[k].deltas, p) > 0
    && forall i :: 0 <= i < k ==> Listings(walked, w[i].deltas, p) == 0
  }

  lemma {:induction false} LatestAuthorMeans(walked: set<string>, w: seq<Commit>, p: string)
    ensures LatestAuthor(walked, w, p).None? ==> forall i :: 0 <= i < |w| ==> Listings(walked, w[i].deltas, p) == 0
    ensures LatestAuthor(walked, w, p).Some? ==>
      exists k: nat :: FirstListing(walked, w, p, k) && By(LatestAuthor(walked, w, p).value)(w[k])
  {
    if w == [] {
    } else {
      var n := |w| - 1;
      var front := w[..n];
      LatestAuthorMeans(walked, front, p);
      TouchedListings(walked, w[n].deltas, p);
      OccursIff(Files(walked, w[n]), p);
      assert forall i :: 0 <= i < n ==> front[i] == w[i];
      if LatestAuthor(walked, front, p).Some? {
        var k: nat :| FirstListing(walked, front, p, k) && By(LatestAuthor(walked, front, p).value)(front[k]);
        assert FirstListing(walked, w, p, k);
      } else if p in Files(walked, w[n]) {
        assert FirstListing(walked, w, p, n);
      }
    }
  }

  /** The last author of a file is the committer of the first commit of the window that lists it. */
  lemma LastAuthorMeans(walked: set<string>, w: seq<Commit>, r: GitSignals, p: string)
    requires IsReport(walked, w, r)
    ensures p in r.lastAuthors <==> exists k: nat :: FirstListing(walked, w, p, k)
    ensures p in r.lastAuthors ==> exists k: nat :: FirstListing(walked, w, p, k) && By(r.lastAuthors[p])(w[k])
  {
    LatestAuthorMeans(walked, w, p);
    assert SeenOk(walked, w, p) by {
      SeenIff(walked, w, p);
    }
  }

  ghost predicate SeenOk(walked: set<string>, w: seq<Commit>, p: string) {
    Freq(walked, w, p) > 0 <==> LatestAuthor(walked, w, p).Some?
  }

  // ----- A history with a revert

  const REVERT: Commit := Commit(1, Some("ann"), Some("Revert bug"), [CHANGE_A])
  const FIX: Commit := Commit(1, None, Some("Fix bug"), [CHANGE_A])

  lemma ListsA()
    ensures Listings(WALKED, [CHANGE_A], "a") == 1
  {
    assert Slashed("a", "a") && Lists(WALKED, CHANGE_A, "a");
    ListingsSnoc(WALKED, [], CHANGE_A, "a");
    assert [] + [CHANGE_A] == [CHANGE_A];
    TouchedListings(WALKED, [], "a");
  }

  lemma TotalOfTwo(x: Commit, y: Commit, p: string, kind: Commit -> bool)
    ensures Total(WALKED, [x, y], p, kind) ==
      (if kind(x) then Listings(WALKED, x.deltas, p) else 0) + (if kind(y) then Listings(WALKED, y.deltas, p) else 0)
  {
    assert [x, y][..1] == [x] && [x][..0] == [];
    assert Total(WALKED, [x], p, kind) == if kind(x) then Listings(WALKED, x.deltas, p) else 0;
  }

  lemma KindsOfCommit()
    ensures Reverting()(REVERT) && !Reverting()(FIX)
    ensures By("ann")(REVERT) && !By("ann")(FIX) && By("unknown")(FIX) && !By("unknown")(REVERT)
  {
    assert "Revert " + "bug" == "Revert bug";
    assert REVERT.message == Some("Revert " + "bug");
    forall t ensures FIX.message != Some("Revert " + t) {
      assert ("Revert " + t)[0] == 'R';
    }
  }

  lemma RevertTotals()
    ensures var w := [REVERT, FIX];
      && Total(WALKED, w, "a", Any()) == 2 && Total(WALKED, w, "a", Reverting()) == 1
      && Total(WALKED, w, "a", By("ann")) == 1 && Total(WALKED, w, "a", By("unknown")) == 1
  {
    ListsA();
    KindsOfCommit();
    TotalOfTwo(REVERT, FIX, "a", Any());
    TotalOfTwo(REVERT, FIX, "a", Reverting());
    TotalOfTwo(REVERT, FIX, "a", By("ann"));
    TotalOfTwo(REVERT, FIX, "a", By("unknown"));
  }

  /** Of a commit "Revert bug" and a commit "Fix bug" on the same file, the first alone counts as a
      revert; the second, without a committer name, counts for "unknown". */
  lemma RevertExample(r: GitSignals)
    requires IsReport(WALKED, [REVERT, FIX], r)
    ensures Get(r.revertCounts, "a") == 1 && Get(r.changeFrequency, "a") == 2
    ensures "a" in r.authorCounts && Get(r.authorCounts["a"], "ann") == 1 && Get(r.authorCounts["a"], "unknown") == 1
  {
    RevertTotals();
    ReportedTotals(WALKED, [REVERT, FIX], r, "a", "ann");
    ReportedTotals(WALKED, [REVERT, FIX], r, "a", "unknown");
  }

  // ----- Renames

  /** The delta renames `from` into the walked file `to`. */
  ghost predicate RenamesInto(walked: set<string>, d: Delta, from: string, to: string) {
    && d.status == Renamed && to in walked
    && exists x, y :: d.oldPath == Some(x) && d.newPath == Some(y) && Slashed(x, from) && Slashed(y, to)
  }

  lemma RenameOfMeans(walked: set<string>, d: Delta, from: string, to: string)
    ensures (from, to) in RenameOf(walked, d) <==> RenamesInto(walked, d, from, to)
  {
    if d.oldPath.Some? && d.newPath.Some? {
      SlashesSlashed(d.oldPath.value, from);
      SlashesSlashed(d.newPath.value, to);
    }
  }

  lemma {:induction false} RenamesOfMeans(walked: set<string>, deltas: seq<Delta>, from: string, to: string)
    ensures (from, to) in RenamesOf(walked, deltas) <==> exists d :: d in deltas && RenamesInto(walked, d, from, to)
  {
    if deltas == [] {
    } else {
      var n := |deltas| - 1;
      RenamesOfMeans(walked, deltas[..n], from, to);
      RenameOfMeans(walked, deltas[n], from, to);
      assert deltas == deltas[..n] + [deltas[n]];
    }
  }

  /** Some delta of the commit renames `from` into the walked file `to`. */
  ghost predicate CommitRenames(walked: set<string>, c: Commit, from: string, to: string) {
    exists d :: d in c.deltas && RenamesInto(walked, d, from, to)
  }

  lemma RenamesStep(walked: set<string>, w: seq<Commit>, c: Commit, from: string, to: string)
    ensures (from, to) in Renames(walked, w + [c]) <==>
      (from, to) in Renames(walked, w) || CommitRenames(walked, c, from, to)
  {
    RenamesOfMeans(walked, c.deltas, from, to);
    assert (w + [c])[..|w|] == w;
  }

  /** The reported renames are those of the window's commits into walked files. */
  lemma {:induction false} RenamesMean(walked: set<string>, w: seq<Commit>, from: string, to: string)
    ensures (from, to) in Renames(walked, w) <==> exists c :: c in w && CommitRenames(walked, c, from, to)
  {
    if w == [] {
    } else {
      var n := |w| - 1;
      RenamesMean(walked, w[..n], from, to);
      RenamesStep(walked, w[..n], w[n], from, to);
      assert w == w[..n] + [w[n]];
    }
  }

  // ----- The window

  /** The visit is a readable commit with at most one parent. */
  predicate Countable(v: Visit) {
    v.Readable? && v.commit.parents <= 1
  }

  ghost predicate Rising(at: seq<nat>, k: nat) {
    && (forall i, j :: 0 <= i < j < |at| ==> at[i] < at[j])
    && (forall i :: 0 <= i < |at| ==> at[i] < k)
  }

  ghost predicate PicksAt(visits: seq<Visit>, at: seq<nat>, w: seq<Commit>) {
    && |at| == |w|
    && forall i :: 0 <= i < |at| ==> at[i] < |visits| && Countable(visits[at[i]]) && visits[at[i]].commit == w[i]
  }

  ghost predicate Covers(visits: seq<Visit>, k: nat, at: seq<nat>)
    requires k <= |visits|
  {
    forall v: nat :: v < k && Countable(visits[v]) ==> v in at
  }

  /** `at` are the positions, in order, of the countable visits among the first `k`, and `w` are
      their commits. */
  ghost predicate Selects(visits: seq<Visit>, k: nat, at: seq<nat>, w: seq<Commit>) {
    k <= |visits| && Rising(at, k) && PicksAt(visits, at, w) && Covers(visits, k, at)
  }

  lemma CoversMore(visits: seq<Visit>, k: nat, at: seq<nat>, more: seq<nat>)
    requires k < |visits| && Covers(visits, k, at) && at <= more && (Countable(visits[k]) ==> k in more)
    ensures Covers(visits, k + 1, more)
  {
    forall v: nat | v < k + 1 && Countable(visits[v]) ensures v in more {
      if v < k {
        assert v in at;
        var i :| 0 <= i < |at| && at[i] == v;
        assert more[i] == v;
      }
    }
  }

  lemma SelectsStep(visits: seq<Visit>, k: nat, at: seq<nat>, w: seq<Commit>)
    requires k < |visits| && Selects(visits, k, at, w)
    ensures Countable(visits[k]) ==> Selects(visits, k + 1, at + [k], w + [visits[k].commit])
    ensures !Countable(visits[k]) ==> Selects(visits, k + 1, at, w)
  {
    if Countable(visits[k]) {
      assert Rising(at + [k], k + 1);
      assert (at + [k])[|at|] == k;
      CoversMore(visits, k, at, at + [k]);
    } else {
      CoversMore(visits, k, at, at);
    }
  }

  lemma SelectsNext(visits: seq<Visit>, k: nat, at: seq<nat>, w: seq<Commit>, more: seq<Commit>)
    returns (next: seq<nat>)
    requires k < |visits| && Selects(visits, k, at, w)
    requires more == w + if Counted(visits[k]) then [visits[k].commit] else []
    ensures Selects(visits, k + 1, next, more)
  {
    SelectsStep(visits, k, at, w);
    if Countable(visits[k]) {
      next := at + [k];
    } else {
      assert more == w;
      next := at;
    }
  }

  lemma {:induction false} NonMergeSelects(visits: seq<Visit>, k: nat) returns (at: seq<nat>)
    requires k <= |visits|
    ensures Selects(visits, k, at, NonMerge(visits[..k]))
  {
    if k == 0 {
      at := [];
    } else {
      var before := NonMergeSelects(visits, k - 1);
      NonMergeSnoc(visits, k - 1);
      at := SelectsNext(visits, k - 1, before, NonMerge(visits[..k - 1]), NonMerge(visits[..k]));
    }
  }

  /** The window is a prefix of the walk without its unreadable commits and merges: it takes all of
      the first `k` visits, and stops before the end only when it holds 5000 commits. */
  lemma WindowMeans(visits: seq<Visit>) returns (k: nat, at: seq<nat>)
    ensures Selects(visits, k, at, Window(visits))
    ensures |Window(visits)| <= 5000 && (k == |visits| || |Window(visits)| == 5000)
  {
    k := WindowEnd(visits);
    at := NonMergeSelects(visits, k);
  }

  lemma {:induction false} WindowEnd(visits: seq<Visit>) returns (k: nat)
    ensures k <= |visits| && NonMerge(visits[..k]) == Window(visits)
    ensures k == |visits| || |Window(visits)| == MAX_COMMITS
  {
    k := 0;
    assert visits[..0] == [];
    while k < |visits| && |NonMerge(visits[..k])| < MAX_COMMITS
      invariant k <= |visits| && |NonMerge(visits[..k])| <= MAX_COMMITS
    {
      NonMergeSnoc(visits, k);
      k := k + 1;
    }
    WindowReached(visits, k);
  }

  // ----- Pairs

  ghost predicate ListsSome(walked: set<string>, d: Delta) {
    exists p :: Lists(walked, d, p)
  }

  /** How many deltas of a commit list some walked file. */
  ghost function ListedDeltas(walked: set<string>, deltas: seq<Delta>): nat {
    |set i: nat | i < |deltas| && ListsSome(walked, deltas[i])|
  }

  lemma PathOfSome(walked: set<string>, d: Delta)
    ensures |PathOf(walked, d)| == One(ListsSome(walked, d))
  {
    if PathOf(walked, d) != [] {
      PathOfLists(walked, d, PathOf(walked, d)[0]);
      assert Lists(walked, d, PathOf(walked, d)[0]);
    } else if p :| Lists(walked, d, p) {
      PathOfLists(walked, d, p);
    }
  }

  lemma ListedDeltasSnoc(walked: set<string>, deltas: seq<Delta>, d: Delta)
    ensures ListedDeltas(walked, deltas + [d]) == ListedDeltas(walked, deltas) + One(ListsSome(walked, d))
  {
    var more := deltas + [d];
    var old_ := set i: nat | i < |deltas| && ListsSome(walked, deltas[i]);
    var new_ := set i: nat | i < |more| && ListsSome(walked, more[i]);
    assert forall i: nat :: i < |deltas| ==> more[i] == deltas[i];
    if ListsSome(walked, d) {
      assert new_ == old_ + {|deltas|};
    } else {
      assert new_ == old_;
    }
  }

  lemma NoDeltas(walked: set<string>, deltas: seq<Delta>)
    requires forall i: nat :: i < |deltas| ==> !ListsSome(walked, deltas[i])
    ensures ListedDeltas(walked, deltas) == 0
  {
    assert (set i: nat | i < |deltas| && ListsSome(walked, deltas[i])) == {};
  }

  lemma {:induction false} TouchedDeltas(walked: set<string>, deltas: seq<Delta>)
    ensures |Touched(walked, deltas)| == ListedDeltas(walked, deltas)
  {
    if deltas == [] {
      NoDeltas(walked, deltas);
    } else {
      var n := |deltas| - 1;
      TouchedDeltas(walked, deltas[..n]);
      PathOfSome(walked, deltas[n]);
      ListedDeltasSnoc(walked, deltas[..n], deltas[n]);
      assert deltas == deltas[..n] + [deltas[n]];
    }
  }

  /** What one commit adds to the pair of `a` and `b`: nothing unless it lists 2 to 50 files. */
  ghost function CommitPairs(walked: set<string>, c: Commit, a: string, b: string): nat {
    var m, n := Listings(walked, c.deltas, a), Listings(walked, c.deltas, b);
    if !(2 <= ListedDeltas(walked, c.deltas) <= 50) then 0
    else if a != b then m * n
    else if m == 0 then 0
    else m * (m - 1) / 2
  }

  ghost function PairTotal(walked: set<string>, w: seq<Commit>, a: string, b: string): nat {
    if w == [] then 0
    else PairTotal(walked, w[..|w| - 1], a, b) + CommitPairs(walked, w[|w| - 1], a, b)
  }

  lemma {:induction false} TriangleMeans(n: nat)
    ensures n > 0 ==> 2 * Triangle(n) == n * (n - 1)
  {
    if n <= 1 {
    } else {
      TriangleMeans(n - 1);
      assert n * (n - 1) == (n - 1) * (n - 2) + 2 * (n - 1);
    }
  }

  lemma CommitPairsMean(walked: set<string>, c: Commit, a: string, b: string)
    ensures CommitPairs(walked, c, a, b) ==
      if PairsCount(|Files(walked, c)|) then Joint(Files(walked, c), a, b) else 0
  {
    TouchedDeltas(walked, c.deltas);
    TouchedListings(walked, c.deltas, a);
    TouchedListings(walked, c.deltas, b);
    TriangleMeans(Occurrences(Files(walked, c), a));
  }

  lemma {:induction false} PairFreqMeans(walked: set<string>, w: seq<Commit>, a: string, b: string)
    ensures PairFreq(walked, w, a, b) == PairTotal(walked, w, a, b)
  {
    if w == [] {
    } else {
      PairFreqMeans(walked, w[..|w| - 1], a, b);
      CommitPairsMean(walked, w[|w| - 1], a, b);
    }
  }

  /** `a` is met no later than `b` among the files in order of first appearance. */
  ghost predicate MetInOrder(walked: set<string>, w: seq<Commit>, a: string, b: string) {
    exists i, j :: 0 <= i <= j < |FirstSeen(Flat(walked, w))|
      && FirstSeen(Flat(walked, w))[i] == a && FirstSeen(Flat(walked, w))[j] == b
  }

  lemma RatioMeans(n: nat, x: nat, y: nat)
    requires n > 0
    ensures Correlated(n, x, y) <==> x > 0 && y > 0 && (10 * n >= 7 * x || 10 * n >= 7 * y)
  {
  }

  /** A pair is reported exactly when its first file is met no later than its second, its count is
      its total and not zero, and that is at least 70% of one of the two files' totals. */
  lemma ReportedPairs(walked: set<string>, w: seq<Commit>, r: GitSignals, a: string, b: string, n: nat)
    requires IsReport(walked, w, r)
    ensures Pair(a, b, n) in r.coChangePairs <==>
      && MetInOrder(walked, w, a, b) && n == PairTotal(walked, w, a, b) > 0
      && (10 * n >= 7 * Total(walked, w, a, Any()) || 10 * n >= 7 * Total(walked, w, b, Any()))
  {
    PairFreqMeans(walked, w, a, b);
    TotalsMean(walked, w, a, "");
    TotalsMean(walked, w, b, "");
    MetMeansTouched(walked, w, a, b);
    if n > 0 {
      RatioMeans(n, Freq(walked, w, a), Freq(walked, w, b));
    }
    assert Pair(a, b, n) in r.coChangePairs <==> Listed(walked, w, Pair(a, b, n));
  }

  lemma MetMeansTouched(walked: set<string>, w: seq<Commit>, a: string, b: string)
    ensures MetInOrder(walked, w, a, b) ==> Freq(walked, w, a) > 0 && Freq(walked, w, b) > 0
  {
    if MetInOrder(walked, w, a, b) {
      assert a in FirstSeen(Flat(walked, w)) && b in FirstSeen(Flat(walked, w));
      assert a in Flat(walked, w) && b in Flat(walked, w);
      SeenIff(walked, w, a);
      SeenIff(walked, w, b);
    }
  }

  /** Pairs are reported by falling count, then by the names of their files. */
  lemma PairsInOrder(walked: set<string>, w: seq<Commit>, r: GitSignals, i: nat, j: nat)
    requires IsReport(walked, w, r) && i < j < |r.coChangePairs|
    ensures var p, q := r.coChangePairs[i], r.coChangePairs[j];
      || p.count > q.count
      || (p.count == q.count && ((p.a != q.a && StringLe(p.a, q.a)) || (p.a == q.a && StringLe(p.b, q.b))))
  {
    assert PairLe(r.coChangePairs[i], r.coChangePairs[j]);
  }

  // ----- Hotspots

  /** File `p` comes no later than `q` by falling total, then by name. */
  ghost predicate Hotter(r: GitSignals, p: string, q: string) {
    || Get(r.changeFrequency, p) > Get(r.changeFrequency, q)
    || (Get(r.changeFrequency, p) == Get(r.changeFrequency, q) && StringLe(p, q))
  }

  /** Of n files with a total there are n/10 hotspots, rounded up. */
  lemma HotspotCount(walked: set<string>, w: seq<Commit>, r: GitSignals)
    requires IsReport(walked, w, r)
    ensures var n, k := |r.changeFrequency|, |r.hotspots|;
      10 * k >= n && (k > 0 ==> 10 * (k - 1) < n)
  {
  }

  lemma HotterThan(freq: map<string, nat>, r: GitSignals, p: string, q: string)
    requires freq == r.changeFrequency && p in freq && q in freq && HotLe((p, freq[p]), (q, freq[q]))
    ensures Hotter(r, p, q)
  {
  }

  /** They are listed hottest first. */
  lemma HotspotsInOrder(walked: set<string>, w: seq<Commit>, r: GitSignals, i: nat, j: nat)
    requires IsReport(walked, w, r) && i < j < |r.hotspots|
    ensures Hotter(r, r.hotspots[i], r.hotspots[j])
  {
    assert r.hotspots[i] in r.hotspots && r.hotspots[j] in r.hotspots;
    HotterThan(r.changeFrequency, r, r.hotspots[i], r.hotspots[j]);
  }

  /** No file that is left out is hotter. */
  lemma HotspotsOnTop(walked: set<string>, w: seq<Commit>, r: GitSignals, h: string, p: string)
    requires IsReport(walked, w, r) && h in r.hotspots && p in r.changeFrequency && p !in r.hotspots
    ensures h in r.changeFrequency && Hotter(r, h, p)
  {
    HotterThan(r.changeFrequency, r, h, p);
  }
}
