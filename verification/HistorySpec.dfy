/** What mining a commit sequence should report, stated over whole windows of commits. */
module HistorySpec {
  import opened Common

  const MAX_COMMITS: nat := 5000
  const MAX_COMMIT_FILES: nat := 50

  datatype Status = Renamed | Deleted | OtherChange

  /** One changed file of a commit; a path is absent when it is not valid UTF-8. */
  datatype Delta = Delta(status: Status, oldPath: Option<string>, newPath: Option<string>)

  datatype Commit = Commit(parents: nat, committer: Option<string>, message: Option<string>, deltas: seq<Delta>)

  /** What the walk over history yields: a commit with its diff, or something unreadable. */
  datatype Visit = Unreadable | Readable(commit: Commit)

  function Author(c: Commit): string {
    if c.committer.Some? then c.committer.value else "unknown"
  }

  predicate IsRevert(c: Commit) {
    c.message.Some? && "Revert " <= c.message.value
  }

  /** Backslashes become slashes. */
  function Slashes(path: string): string {
    seq(|path|, i requires 0 <= i < |path| => if path[i] == '\\' then '/' else path[i])
  }

  function Normalize(path: Option<string>): Option<string> {
    if path.Some? then Some(Slashes(path.value)) else None
  }

  /** The path a delta counts for: the old one for deletions, the new one otherwise. */
  function DeltaPath(d: Delta): Option<string> {
    if d.status == Deleted then Normalize(d.oldPath) else Normalize(d.newPath)
  }

  /** The walked file a delta touches, if any. */
  function PathOf(walked: set<string>, d: Delta): seq<string> {
    var path := DeltaPath(d);
    if path.Some? && path.value in walked then [path.value] else []
  }

  /** The rename into a walked file that a delta records, if any. */
  function RenameOf(walked: set<string>, d: Delta): seq<(string, string)> {
    var from, to := Normalize(d.oldPath), Normalize(d.newPath);
    if d.status == Renamed && from.Some? && to.Some? && to.value in walked then [(from.value, to.value)] else []
  }

  /** The walked files a list of deltas touches, in delta order. */
  function Touched(walked: set<string>, deltas: seq<Delta>): seq<string> {
    if deltas == [] then []
    else Touched(walked, deltas[..|deltas| - 1]) + PathOf(walked, deltas[|deltas| - 1])
  }

  function Files(walked: set<string>, c: Commit): seq<string> {
    Touched(walked, c.deltas)
  }

  function RenamesOf(walked: set<string>, deltas: seq<Delta>): seq<(string, string)> {
    if deltas == [] then []
    else RenamesOf(walked, deltas[..|deltas| - 1]) + RenameOf(walked, deltas[|deltas| - 1])
  }

  function Counted(v: Visit): bool {
    v.Readable? && v.commit.parents <= 1
  }

  /** Readable non-merge commits. */
  function NonMerge(visits: seq<Visit>): seq<Commit> {
    if visits == [] then []
    else
      var n := |visits| - 1;
      NonMerge(visits[..n]) + if Counted(visits[n]) then [visits[n].commit] else []
  }

  /** The commits that count: the first MAX_COMMITS readable non-merge ones. */
  function Window(visits: seq<Visit>): (w: seq<Commit>)
    ensures |w| <= MAX_COMMITS
  {
    var all := NonMerge(visits);
    if |all| <= MAX_COMMITS then all else all[..MAX_COMMITS]
  }

  // ----- Totals over a window

  /** How often the window touches `p`. */
  function Freq(walked: set<string>, w: seq<Commit>, p: string): nat {
    if w == [] then 0
    else Freq(walked, w[..|w| - 1], p) + Occurrences(Files(walked, w[|w| - 1]), p)
  }

  function AuthorFreq(walked: set<string>, w: seq<Commit>, p: string, author: string): nat {
    if w == [] then 0
    else
      var c := w[|w| - 1];
      AuthorFreq(walked, w[..|w| - 1], p, author) + if Author(c) == author then Occurrences(Files(walked, c), p) else 0
  }

  function Reverts(walked: set<string>, w: seq<Commit>, p: string): nat {
    if w == [] then 0
    else
      var c := w[|w| - 1];
      Reverts(walked, w[..|w| - 1], p) + if IsRevert(c) then Occurrences(Files(walked, c), p) else 0
  }

  /** Unordered pairs among n copies. */
  function Triangle(n: nat): nat {
    if n == 0 then 0 else Triangle(n - 1) + (n - 1)
  }

  /** Unordered pairs of one `a` and one `b` in a file list. */
  function Joint(files: seq<string>, a: string, b: string): nat {
    if a == b then Triangle(Occurrences(files, a)) else Occurrences(files, a) * Occurrences(files, b)
  }

  /** Commits this large or this small contribute no pairs. */
  predicate PairsCount(n: nat) {
    1 < n <= MAX_COMMIT_FILES
  }

  function PairFreq(walked: set<string>, w: seq<Commit>, a: string, b: string): nat {
    if w == [] then 0
    else
      var files := Files(walked, w[|w| - 1]);
      PairFreq(walked, w[..|w| - 1], a, b) + if PairsCount(|files|) then Joint(files, a, b) else 0
  }

  /** The committer of the first commit in the window that touches `p`: the walk runs from the
      newest commit backwards. */
  function LatestAuthor(walked: set<string>, w: seq<Commit>, p: string): Option<string> {
    if w == [] then None
    else
      var c := w[|w| - 1];
      var before := LatestAuthor(walked, w[..|w| - 1], p);
      if before.Some? then before else if p in Files(walked, c) then Some(Author(c)) else None
  }

  /** Every touched file, commit after commit. */
  function Flat(walked: set<string>, w: seq<Commit>): seq<string> {
    if w == [] then [] else Flat(walked, w[..|w| - 1]) + Files(walked, w[|w| - 1])
  }

  function Renames(walked: set<string>, w: seq<Commit>): seq<(string, string)> {
    if w == [] then [] else Renames(walked, w[..|w| - 1]) + RenamesOf(walked, w[|w| - 1].deltas)
  }

  // ----- Facts about the totals

  /** Number of commits of the window that touch `p`. */
  function Touching(walked: set<string>, w: seq<Commit>, p: string): nat {
    if w == [] then 0
    else Touching(walked, w[..|w| - 1], p) + if p in Files(walked, w[|w| - 1]) then 1 else 0
  }

  /** Number of commits of 2 to 50 walked files that touch both `a` and `b`. */
  function TouchingBoth(walked: set<string>, w: seq<Commit>, a: string, b: string): nat {
    if w == [] then 0
    else
      var files := Files(walked, w[|w| - 1]);
      TouchingBoth(walked, w[..|w| - 1], a, b) + if PairsCount(|files|) && a in files && b in files then 1 else 0
  }

  lemma OccursIff<T>(s: seq<T>, x: T)
    ensures Occurrences(s, x) > 0 <==> x in s
  {
    OccurrencesIsMultiplicity(s, x);
  }

  ghost predicate ListedOnce(walked: set<string>, w: seq<Commit>, p: string) {
    forall c :: c in w ==> Occurrences(Files(walked, c), p) <= 1
  }

  /** A file's frequency is the number of commits touching it exactly when no commit of the
      window lists it twice; it is never less. */
  lemma {:induction false} FreqCountsCommits(walked: set<string>, w: seq<Commit>, p: string)
    ensures Touching(walked, w, p) <= Freq(walked, w, p)
    ensures Freq(walked, w, p) == Touching(walked, w, p) <==> ListedOnce(walked, w, p)
  {
    if w == [] {
    } else {
      var n := |w| - 1;
      FreqCountsCommits(walked, w[..n], p);
      OccursIff(Files(walked, w[n]), p);
      assert w == w[..n] + [w[n]];
      assert ListedOnce(walked, w, p) <==> ListedOnce(walked, w[..n], p) && Occurrences(Files(walked, w[n]), p) <= 1;
    }
  }

  /** No commit of the window lists a walked file twice. */
  ghost predicate NoDuplicates(walked: set<string>, w: seq<Commit>) {
    forall c :: c in w ==> Distinct(Files(walked, c))
  }

  /** Then the count of a pair of files is the number of joint commits of 2 to 50 files, which
      never exceeds either frequency; and no file pairs with itself. */
  lemma {:induction false} PairFreqCountsCommits(walked: set<string>, w: seq<Commit>, a: string, b: string)
    requires NoDuplicates(walked, w)
    ensures a != b ==> PairFreq(walked, w, a, b) == TouchingBoth(walked, w, a, b)
    ensures a == b ==> PairFreq(walked, w, a, b) == 0
    ensures PairFreq(walked, w, a, b) <= Freq(walked, w, a) && PairFreq(walked, w, a, b) <= Freq(walked, w, b)
  {
    if w == [] {
    } else {
      var n := |w| - 1;
      assert w == w[..n] + [w[n]];
      PairFreqCountsCommits(walked, w[..n], a, b);
      OccurrencesDistinct(Files(walked, w[n]), a);
      OccurrencesDistinct(Files(walked, w[n]), b);
      assert Triangle(0) == Triangle(1) == 0;
    }
  }

  predicate JointCommit(walked: set<string>, c: Commit, a: string, b: string) {
    PairsCount(|Files(walked, c)|) && a in Files(walked, c) && b in Files(walked, c)
  }

  predicate OnceEach(files: seq<string>, a: string, b: string) {
    Occurrences(files, a) == 1 && Occurrences(files, b) == 1
  }

  /** No commit that counts `a` and `b` as a pair lists either of them twice. */
  ghost predicate JointlyOnce(walked: set<string>, w: seq<Commit>, a: string, b: string) {
    forall c :: c in w && JointCommit(walked, c, a, b) ==> OnceEach(Files(walked, c), a, b)
  }

  lemma JointOnce(files: seq<string>, a: string, b: string)
    requires a != b
    ensures Joint(files, a, b) > 0 <==> a in files && b in files
    ensures Joint(files, a, b) == 1 <==> OnceEach(files, a, b)
  {
    OccursIff(files, a);
    OccursIff(files, b);
    ProductOne(Occurrences(files, a), Occurrences(files, b));
  }

  lemma ProductOne(m: nat, n: nat)
    ensures m * n == 1 <==> m == 1 && n == 1
    ensures m * n > 0 <==> m > 0 && n > 0
  {
    if m >= 2 && n >= 1 {
      assert m * n >= m;
    }
    if n >= 2 && m >= 1 {
      assert m * n >= n;
    }
  }

  /** What one commit adds to the count of two files. */
  lemma JointShare(walked: set<string>, c: Commit, a: string, b: string)
    requires a != b
    ensures var share := if PairsCount(|Files(walked, c)|) then Joint(Files(walked, c), a, b) else 0;
      && One(JointCommit(walked, c, a, b)) <= share
      && (share == One(JointCommit(walked, c, a, b)) <==>
           (JointCommit(walked, c, a, b) ==> OnceEach(Files(walked, c), a, b)))
  {
    JointOnce(Files(walked, c), a, b);
  }

  lemma JointlyOnceSnoc(walked: set<string>, w: seq<Commit>, c: Commit, a: string, b: string)
    ensures JointlyOnce(walked, w + [c], a, b) <==>
      JointlyOnce(walked, w, a, b) && (JointCommit(walked, c, a, b) ==> OnceEach(Files(walked, c), a, b))
  {
    assert c in w + [c] && forall d :: d in w ==> d in w + [c];
  }

  /** In general the count of two files is the number of their joint commits exactly when none of
      those lists either of them twice; it is never less. */
  lemma {:induction false} PairFreqIsJointIff(walked: set<string>, w: seq<Commit>, a: string, b: string)
    requires a != b
    ensures TouchingBoth(walked, w, a, b) <= PairFreq(walked, w, a, b)
    ensures PairFreq(walked, w, a, b) == TouchingBoth(walked, w, a, b) <==> JointlyOnce(walked, w, a, b)
  {
    if w == [] {
    } else {
      var n := |w| - 1;
      PairFreqIsJointIff(walked, w[..n], a, b);
      JointShare(walked, w[n], a, b);
      JointlyOnceSnoc(walked, w[..n], w[n], a, b);
      assert w == w[..n] + [w[n]];
    }
  }

  /** No commit lists a walked file more than twice, as a diff does that reports one path as
      deleted and as added. */
  ghost predicate AtMostTwice(walked: set<string>, w: seq<Commit>) {
    forall c: Commit, p: string :: c in w ==> Occurrences(Files(walked, c), p) <= 2
  }

  /** Then a file is paired with itself at most half as often as it is touched. */
  lemma {:induction false} SelfPairsAreFew(walked: set<string>, w: seq<Commit>, p: string)
    requires AtMostTwice(walked, w)
    ensures 2 * PairFreq(walked, w, p, p) <= Freq(walked, w, p)
  {
    if w == [] {
    } else {
      var n := |w| - 1;
      assert forall c :: c in w[..n] ==> c in w;
      SelfPairsAreFew(walked, w[..n], p);
      assert w[n] in w && Occurrences(Files(walked, w[n]), p) <= 2;
      assert Triangle(0) == Triangle(1) == 0 && Triangle(2) == 1;
    }
  }

  lemma {:induction false} PairFreqSymmetric(walked: set<string>, w: seq<Commit>, a: string, b: string)
    ensures PairFreq(walked, w, a, b) == PairFreq(walked, w, b, a)
  {
    if w == [] {
    } else {
      PairFreqSymmetric(walked, w[..|w| - 1], a, b);
    }
  }

  /** A file is never reverted more often than it is touched. */
  lemma {:induction false} RevertsWithinFreq(walked: set<string>, w: seq<Commit>, p: string)
    ensures Reverts(walked, w, p) <= Freq(walked, w, p)
  {
    if w == [] {
    } else {
      RevertsWithinFreq(walked, w[..|w| - 1], p);
    }
  }

  /** Exactly the files in the window have a frequency and an author. */
  lemma {:induction false} SeenIff(walked: set<string>, w: seq<Commit>, p: string)
    ensures p in Flat(walked, w) <==> Freq(walked, w, p) > 0
    ensures p in Flat(walked, w) <==> LatestAuthor(walked, w, p).Some?
  {
    if w == [] {
    } else {
      SeenIff(walked, w[..|w| - 1], p);
      OccursIff(Files(walked, w[|w| - 1]), p);
    }
  }

  lemma {:induction false} AuthorsWithinFreq(walked: set<string>, w: seq<Commit>, p: string, a: string)
    ensures AuthorFreq(walked, w, p, a) <= Freq(walked, w, p)
  {
    if w == [] {
    } else {
      AuthorsWithinFreq(walked, w[..|w| - 1], p, a);
    }
  }

  /** A file outside the window is in no pair. */
  lemma {:induction false} UnseenPair(walked: set<string>, w: seq<Commit>, p: string, q: string)
    requires p !in Flat(walked, w)
    ensures PairFreq(walked, w, p, q) == PairFreq(walked, w, q, p) == 0
  {
    if w == [] {
    } else {
      UnseenPair(walked, w[..|w| - 1], p, q);
      OccursIff(Files(walked, w[|w| - 1]), p);
      assert Triangle(0) == 0;
    }
  }

  lemma {:induction false} NonMergePrefix(visits: seq<Visit>, k: nat)
    requires k <= |visits|
    ensures NonMerge(visits[..k]) <= NonMerge(visits)
    decreases |visits|
  {
    if k == |visits| {
      assert visits[..k] == visits;
    } else {
      var n := |visits| - 1;
      NonMergePrefix(visits[..n], k);
      assert visits[..n][..k] == visits[..k];
    }
  }
}
