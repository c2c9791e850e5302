/** The miner's running counters, keyed by interned path number, and the loops that update
    them for one commit. */
module HistoryTally {
  import opened Common
  import opened Ordering
  import opened HistorySpec

  // ----- Interning

  /** `files` are the numbers of `paths`. */
  ghost predicate Indexes(names: seq<string>, files: seq<nat>, paths: seq<string>) {
    && |files| == |paths|
    && forall j :: 0 <= j < |files| ==> files[j] < |names| && names[files[j]] == paths[j]
  }

  lemma FirstSeenSnoc(s: seq<string>, x: string)
    ensures FirstSeen(s + [x]) == if x in FirstSeen(s) then FirstSeen(s) else FirstSeen(s) + [x]
  {
    assert (s + [x])[..|s|] == s;
  }

  /** Give `path` a number, reusing the one it has. */
  method Intern(names0: seq<string>, intern0: map<string, nat>, path: string)
    returns (names: seq<string>, intern: map<string, nat>, idx: nat)
    requires Numbering(names0, intern0)
    ensures Numbering(names, intern)
    ensures names == if path in names0 then names0 else names0 + [path]
    ensures idx < |names| && names[idx] == path
  {
    names, intern := names0, intern0;
    if path in intern {
      return names, intern, intern[path];
    }
    idx := |names|;
    names := names + [path];
    intern := intern[path := idx];
  }

  lemma {:induction false} FirstSeenPrefix(s: seq<string>, t: seq<string>)
    ensures FirstSeen(s) <= FirstSeen(s + t)
    decreases |t|
  {
    if t == [] {
      assert s + t == s;
    } else {
      var n := |t| - 1;
      FirstSeenPrefix(s, t[..n]);
      assert s + t == (s + t[..n]) + [t[n]];
      FirstSeenSnoc(s + t[..n], t[n]);
    }
  }

  /** The step of collecting one delta, on what has been seen so far. */
  lemma CollectStep(walked: set<string>, deltas: seq<Delta>, k: nat, flat: seq<string>)
    requires k < |deltas|
    ensures Touched(walked, deltas[..k + 1]) == Touched(walked, deltas[..k]) + PathOf(walked, deltas[k])
    ensures RenamesOf(walked, deltas[..k + 1]) == RenamesOf(walked, deltas[..k]) + RenameOf(walked, deltas[k])
    ensures flat + Touched(walked, deltas[..k + 1]) == (flat + Touched(walked, deltas[..k])) + PathOf(walked, deltas[k])
  {
    assert deltas[..k + 1][..k] == deltas[..k];
  }

  /** `names` are the first-seen paths of `seen`, numbered by `intern`. */
  ghost predicate Interned(names: seq<string>, intern: map<string, nat>, seen: seq<string>) {
    Numbering(names, intern) && names == FirstSeen(seen)
  }

  lemma IndexesSnoc(names: seq<string>, more: seq<string>, files: seq<nat>, paths: seq<string>, idx: nat, path: string)
    requires Indexes(names, files, paths) && names <= more && idx < |more| && more[idx] == path
    ensures Indexes(more, files + [idx], paths + [path])
  {
  }

  /** Number the file of one delta, if it is a walked one. */
  method CollectOne(walked: set<string>, d: Delta, names0: seq<string>, intern0: map<string, nat>, files0: seq<nat>,
                    ghost seen: seq<string>, ghost paths: seq<string>)
    returns (files: seq<nat>, names: seq<string>, intern: map<string, nat>)
    requires Interned(names0, intern0, seen) && Indexes(names0, files0, paths)
    ensures Interned(names, intern, seen + PathOf(walked, d))
    ensures Indexes(names, files, paths + PathOf(walked, d))
  {
    files, names, intern := files0, names0, intern0;
    var path := DeltaPath(d);
    if path.Some? && path.value in walked {
      FirstSeenSnoc(seen, path.value);
      var idx;
      names, intern, idx := Intern(names, intern, path.value);
      files := files + [idx];
      IndexesSnoc(names0, names, files0, paths, idx, path.value);
    } else {
      assert seen + [] == seen && paths + [] == paths;
    }
  }

  /** Number the walked files that a diff touches, and note renames into walked files. */
  method CollectFiles(walked: set<string>, deltas: seq<Delta>, names0: seq<string>, intern0: map<string, nat>,
                      ghost flat: seq<string>)
    returns (files: seq<nat>, names: seq<string>, intern: map<string, nat>, renames: seq<(string, string)>)
    requires Interned(names0, intern0, flat)
    ensures Interned(names, intern, flat + Touched(walked, deltas))
    ensures Indexes(names, files, Touched(walked, deltas))
    ensures renames == RenamesOf(walked, deltas)
  {
    files, names, intern, renames := [], names0, intern0, [];
    assert flat + [] == flat;
    for k := 0 to |deltas|
      invariant Interned(names, intern, flat + Touched(walked, deltas[..k]))
      invariant Indexes(names, files, Touched(walked, deltas[..k]))
      invariant renames == RenamesOf(walked, deltas[..k])
    {
      CollectStep(walked, deltas, k, flat);
      renames := renames + RenameOf(walked, deltas[k]);
      files, names, intern := CollectOne(walked, deltas[k], names, intern, files,
        flat + Touched(walked, deltas[..k]), Touched(walked, deltas[..k]));
    }
    assert deltas[..|deltas|] == deltas;
  }

  /** Counting numbers is counting names. */
  lemma {:induction false} IndexOccurrences(names: seq<string>, files: seq<nat>, paths: seq<string>, i: nat)
    requires Distinct(names) && Indexes(names, files, paths) && i < |names|
    ensures Occurrences(files, i) == Occurrences(paths, names[i])
  {
    if files == [] {
    } else {
      IndexOccurrences(names, files[1..], paths[1..], i);
      if files[0] != i {
        assert names[files[0]] != names[i];
      }
    }
  }

  // ----- Frequency and authors

  /** Sum of the values of a map. */
  ghost function SumOf(m: map<string, nat>): nat
    decreases |m|
  {
    if m == map[] then 0
    else
      var k :| k in m;
      m[k] + SumOf(m - {k})
  }

  lemma {:induction false} SumOfWithout(m: map<string, nat>, k: string)
    requires k in m
    ensures SumOf(m) == m[k] + SumOf(m - {k})
    decreases |m|
  {
    var j :| j in m && SumOf(m) == m[j] + SumOf(m - {j});
    if j != k {
      SumOfWithout(m - {j}, k);
      SumOfWithout(m - {k}, j);
      assert m - {j} - {k} == m - {k} - {j};
    }
  }

  lemma SumOfIncrement(m: map<string, nat>, k: string)
    ensures SumOf(m[k := Get(m, k) + 1]) == SumOf(m) + 1
  {
    var m' := m[k := Get(m, k) + 1];
    SumOfWithout(m', k);
    if k in m {
      SumOfWithout(m, k);
      assert m' - {k} == m - {k};
    } else {
      assert m' - {k} == m;
    }
  }

  function AuthorsAt(authors: map<nat, map<string, nat>>, i: nat): map<string, nat> {
    if i in authors then authors[i] else map[]
  }

  function AuthorCount(authors: map<nat, map<string, nat>>, i: nat, a: string): nat {
    Get(AuthorsAt(authors, i), a)
  }

  /** Each file's author counts are positive and add up to its frequency. */
  ghost predicate AuthorsAddUp(freq: map<nat, nat>, authors: map<nat, map<string, nat>>) {
    && freq.Keys == authors.Keys
    && (forall i: nat :: SumOf(AuthorsAt(authors, i)) == Get(freq, i))
    && (forall i: nat :: Positive(AuthorsAt(authors, i)))
  }

  ghost predicate Positive<K(!new)>(m: map<K, nat>) {
    forall k :: k in m ==> m[k] > 0
  }

  lemma OccurrencesSnoc(s: seq<nat>, k: nat, i: nat)
    requires k < |s|
    ensures Occurrences(s[..k + 1], i) == Occurrences(s[..k], i) + One(i == s[k])
  {
    assert s[..k + 1] == s[..k] + [s[k]];
    OccurrencesAppend(s[..k], [s[k]], i);
  }

  /** Count one more commit of `author` touching file `x`. */
  method CountOne(x: nat, author: string, freq0: map<nat, nat>, authors0: map<nat, map<string, nat>>)
    returns (freq: map<nat, nat>, authors: map<nat, map<string, nat>>)
    requires AuthorsAddUp(freq0, authors0) && Positive(freq0)
    ensures AuthorsAddUp(freq, authors) && Positive(freq)
    ensures forall i: nat :: Get(freq, i) == Get(freq0, i) + One(i == x)
    ensures forall i: nat, a :: AuthorCount(authors, i, a) == AuthorCount(authors0, i, a) + One(i == x && a == author)
  {
    freq := freq0[x := Get(freq0, x) + 1];
    var counts := AuthorsAt(authors0, x);
    SumOfIncrement(counts, author);
    authors := authors0[x := counts[author := Get(counts, author) + 1]];
    forall i: nat ensures SumOf(AuthorsAt(authors, i)) == Get(freq, i) && Positive(AuthorsAt(authors, i)) {
      assert Positive(AuthorsAt(authors0, i));
      if i != x {
        assert AuthorsAt(authors, i) == AuthorsAt(authors0, i);
      }
    }
  }

  /** Count each listed file once more, for the file and for its committer. */
  method CountFiles(files: seq<nat>, author: string, freq0: map<nat, nat>, authors0: map<nat, map<string, nat>>)
    returns (freq: map<nat, nat>, authors: map<nat, map<string, nat>>)
    requires AuthorsAddUp(freq0, authors0) && Positive(freq0)
    ensures AuthorsAddUp(freq, authors) && Positive(freq)
    ensures forall i: nat :: Get(freq, i) == Get(freq0, i) + Occurrences(files, i)
    ensures forall i: nat, a ::
      AuthorCount(authors, i, a) == AuthorCount(authors0, i, a) + One(a == author) * Occurrences(files, i)
  {
    freq, authors := freq0, authors0;
    for k := 0 to |files|
      invariant AuthorsAddUp(freq, authors) && Positive(freq)
      invariant forall i: nat :: Get(freq, i) == Get(freq0, i) + Occurrences(files[..k], i)
      invariant forall i: nat, a ::
        AuthorCount(authors, i, a) == AuthorCount(authors0, i, a) + One(a == author) * Occurrences(files[..k], i)
    {
      forall i: nat ensures Occurrences(files[..k + 1], i) == Occurrences(files[..k], i) + One(i == files[k]) {
        OccurrencesSnoc(files, k, i);
      }
      freq, authors := CountOne(files[k], author, freq, authors);
    }
    assert files[..|files|] == files;
  }

  /** Files seen for the first time get this author; others keep theirs. */
  method NoteAuthor(files: seq<nat>, author: string, last0: map<nat, string>) returns (last: map<nat, string>)
    ensures last.Keys == last0.Keys + Elements(files)
    ensures forall i: nat :: i in last ==> last[i] == if i in last0 then last0[i] else author
  {
    last := last0;
    for k := 0 to |files|
      invariant last.Keys == last0.Keys + Elements(files[..k])
      invariant forall i: nat :: i in last ==> last[i] == if i in last0 then last0[i] else author
    {
      assert files[..k + 1] == files[..k] + [files[k]];
      if files[k] !in last {
        last := last[files[k] := author];
      }
    }
    assert files[..|files|] == files;
  }

  /** Count each listed file once more. */
  method CountAll(files: seq<nat>, counts0: map<nat, nat>) returns (counts: map<nat, nat>)
    requires Positive(counts0)
    ensures Positive(counts)
    ensures forall i: nat :: Get(counts, i) == Get(counts0, i) + Occurrences(files, i)
  {
    counts := counts0;
    for k := 0 to |files|
      invariant Positive(counts)
      invariant forall i: nat :: Get(counts, i) == Get(counts0, i) + Occurrences(files[..k], i)
    {
      forall i: nat ensures Occurrences(files[..k + 1], i) == Occurrences(files[..k], i) + One(i == files[k]) {
        OccurrencesSnoc(files, k, i);
      }
      counts := counts[files[k] := Get(counts, files[k]) + 1];
    }
    assert files[..|files|] == files;
  }

  // ----- Pairs

  /** Number of positions i < j with `k.0` at i and `k.1` at j. */
  ghost function PairOcc(s: seq<nat>, k: (nat, nat)): nat {
    if s == [] then 0
    else (if s[0] == k.0 then Occurrences(s[1..], k.1) else 0) + PairOcc(s[1..], k)
  }

  /** Count every later entry against the entry at `i`. */
  method CountRow(files: seq<nat>, i: nat, pairs0: map<(nat, nat), nat>) returns (pairs: map<(nat, nat), nat>)
    requires i < |files| && Positive(pairs0)
    ensures Positive(pairs)
    ensures forall k: (nat, nat) ::
      Get(pairs, k) == Get(pairs0, k) + One(files[i] == k.0) * Occurrences(files[i + 1..], k.1)
  {
    pairs := pairs0;
    var later := files[i + 1..];
    for n := 0 to |later|
      invariant Positive(pairs)
      invariant forall k: (nat, nat) ::
        Get(pairs, k) == Get(pairs0, k) + One(files[i] == k.0) * Occurrences(later[..n], k.1)
    {
      forall y: nat ensures Occurrences(later[..n + 1], y) == Occurrences(later[..n], y) + One(y == later[n]) {
        OccurrencesSnoc(later, n, y);
      }
      var key := (files[i], later[n]);
      pairs := pairs[key := Get(pairs, key) + 1];
    }
    assert later[..|later|] == later;
  }

  method CountPairs(files: seq<nat>, pairs0: map<(nat, nat), nat>) returns (pairs: map<(nat, nat), nat>)
    requires Positive(pairs0)
    ensures Positive(pairs)
    ensures forall k: (nat, nat) :: Get(pairs, k) == Get(pairs0, k) + PairOcc(files, k)
  {
    pairs := pairs0;
    assert files[0..] == files;
    for i := 0 to |files|
      invariant Positive(pairs)
      invariant forall k: (nat, nat) :: Get(pairs, k) + PairOcc(files[i..], k) == Get(pairs0, k) + PairOcc(files, k)
    {
      assert files[i..][1..] == files[i + 1..] && files[i..][0] == files[i];
      pairs := CountRow(files, i, pairs);
    }
  }

  predicate NatLe(a: nat, b: nat) { a <= b }

  /** In a sorted list, a pair of numbers is met once per unordered pair, smaller first. */
  lemma {:induction false} SortedPairOcc(s: seq<nat>, a: nat, b: nat)
    requires SortedBy(s, NatLe)
    ensures PairOcc(s, (a, b)) ==
      if a == b then Triangle(Occurrences(s, a))
      else if a < b then Occurrences(s, a) * Occurrences(s, b)
      else 0
  {
    if s == [] {
    } else {
      SortedPairOcc(s[1..], a, b);
      OccursIff(s[1..], a);
      OccursIff(s[1..], b);
      if s[0] == a && a > b {
        assert b !in s[1..];
      }
      if s[0] == b && a < b {
        assert a !in s[1..];
      }
      if s[0] == a && a < b {
        assert Occurrences(s, a) * Occurrences(s, b) == (Occurrences(s[1..], a) + 1) * Occurrences(s[1..], b);
      }
    }
  }

  /** Sorting the file numbers first makes each unordered pair count under one key. */
  lemma SortedPairs(names: seq<string>, files: seq<nat>, paths: seq<string>, i: nat, j: nat)
    requires Distinct(names) && Indexes(names, files, paths) && i < |names| && j < |names|
    ensures PairOcc(Sort(files, NatLe), (i, j)) == if i <= j then Joint(paths, names[i], names[j]) else 0
  {
    var sorted := Sort(files, NatLe);
    SortSorts(files, NatLe);
    SortedPairOcc(sorted, i, j);
    forall x ensures Occurrences(sorted, x) == Occurrences(files, x) {
      OccurrencesIsMultiplicity(sorted, x);
      OccurrencesIsMultiplicity(files, x);
    }
    IndexOccurrences(names, files, paths, i);
    IndexOccurrences(names, files, paths, j);
    assert i != j ==> names[i] != names[j];
  }
}
