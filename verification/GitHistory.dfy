/** Mining a commit history in one pass: the counters agree with the window totals after
    every commit, and the report converts them back to paths without losing an entry. */
module GitHistory {
  import opened Common
  import opened Ordering
  import opened HistorySpec
  import opened HistoryTally
  import opened Clusters

  datatype Tally = Tally(
    names: seq<string>, intern: map<string, nat>,
    freq: map<nat, nat>, last: map<nat, string>, authors: map<nat, map<string, nat>>,
    reverts: map<nat, nat>, pairs: map<(nat, nat), nat>, renames: seq<(string, string)>)

  // ----- Counters against window totals

  ghost predicate FreqOk(walked: set<string>, w: seq<Commit>, names: seq<string>, freq: map<nat, nat>) {
    forall i: nat {:trigger Get(freq, i)} :: Get(freq, i) == if i < |names| then Freq(walked, w, names[i]) else 0
  }

  ghost predicate RevertsOk(walked: set<string>, w: seq<Commit>, names: seq<string>, reverts: map<nat, nat>) {
    forall i: nat {:trigger Get(reverts, i)} ::
      Get(reverts, i) == if i < |names| then Reverts(walked, w, names[i]) else 0
  }

  ghost predicate AuthorsOk(walked: set<string>, w: seq<Commit>, names: seq<string>,
                            authors: map<nat, map<string, nat>>) {
    forall i: nat, a {:trigger AuthorCount(authors, i, a)} ::
      AuthorCount(authors, i, a) == if i < |names| then AuthorFreq(walked, w, names[i], a) else 0
  }

  ghost predicate LastOk(walked: set<string>, w: seq<Commit>, names: seq<string>, last: map<nat, string>) {
    && (forall i: nat :: i in last <==> i < |names|)
    && (forall i: nat :: i < |names| ==> LatestAuthor(walked, w, names[i]) == Some(last[i]))
  }

  ghost predicate PairsOk(walked: set<string>, w: seq<Commit>, names: seq<string>, pairs: map<(nat, nat), nat>) {
    forall i: nat, j: nat {:trigger Get(pairs, (i, j))} ::
      Get(pairs, (i, j)) == if i <= j < |names| then PairFreq(walked, w, names[i], names[j]) else 0
  }

  /** Every counter equals the total it stands for, for all numbers at once. */
  ghost predicate TallyOk(walked: set<string>, w: seq<Commit>, t: Tally) {
    && Interned(t.names, t.intern, Flat(walked, w))
    && FreqOk(walked, w, t.names, t.freq) && Positive(t.freq)
    && LastOk(walked, w, t.names, t.last)
    && AuthorsOk(walked, w, t.names, t.authors) && AuthorsAddUp(t.freq, t.authors)
    && RevertsOk(walked, w, t.names, t.reverts) && Positive(t.reverts)
    && PairsOk(walked, w, t.names, t.pairs) && Positive(t.pairs)
    && t.renames == Renames(walked, w)
  }

  /** `more` adds to `names` the numbers of one further commit `c` after the window `w`: old
      numbers keep their path, new ones get paths not seen before, and `files` counts like
      the commit's paths. */
  ghost predicate Extended(walked: set<string>, w: seq<Commit>, c: Commit, names: seq<string>, more: seq<string>,
                           files: seq<nat>) {
    && names <= more
    && (forall i: nat :: |names| <= i < |more| ==> more[i] !in Flat(walked, w))
    && (forall i: nat :: Occurrences(files, i) == if i < |more| then Occurrences(Files(walked, c), more[i]) else 0)
  }

  lemma NewNamesUnseen(flat: seq<string>, t: seq<string>, i: nat)
    requires |FirstSeen(flat)| <= i < |FirstSeen(flat + t)|
    ensures FirstSeen(flat + t)[i] !in flat
  {
    var names, more := FirstSeen(flat), FirstSeen(flat + t);
    FirstSeenPrefix(flat, t);
    forall k | 0 <= k < |names| ensures names[k] != more[i] {
      assert names[k] == more[k];
    }
  }

  lemma InternGrows(walked: set<string>, w: seq<Commit>, c: Commit, names: seq<string>, more: seq<string>,
                    files: seq<nat>)
    requires names == FirstSeen(Flat(walked, w))
    requires more == FirstSeen(Flat(walked, w) + Files(walked, c)) && Indexes(more, files, Files(walked, c))
    ensures Extended(walked, w, c, names, more, files)
  {
    FirstSeenPrefix(Flat(walked, w), Files(walked, c));
    forall i: nat | |names| <= i < |more| ensures more[i] !in Flat(walked, w) {
      NewNamesUnseen(Flat(walked, w), Files(walked, c), i);
    }
    forall i: nat ensures Occurrences(files, i) == if i < |more| then Occurrences(Files(walked, c), more[i]) else 0 {
      if i < |more| {
        IndexOccurrences(more, files, Files(walked, c), i);
      } else {
        OccursIff(files, i);
      }
    }
  }

  lemma Snoc(w: seq<Commit>, c: Commit)
    ensures (w + [c])[..|w + [c]| - 1] == w && (w + [c])[|w + [c]| - 1] == c
  {
  }

  // What one commit with these file numbers adds to each counter.

  ghost predicate FreqAdds(files: seq<nat>, freq: map<nat, nat>, freq': map<nat, nat>) {
    forall i: nat :: Get(freq', i) == Get(freq, i) + Occurrences(files, i)
  }

  ghost predicate RevertsAdd(c: Commit, files: seq<nat>, reverts: map<nat, nat>, reverts': map<nat, nat>) {
    forall i: nat :: Get(reverts', i) == Get(reverts, i) + if IsRevert(c) then Occurrences(files, i) else 0
  }

  ghost predicate AuthorsAdd(c: Commit, files: seq<nat>, authors: map<nat, map<string, nat>>,
                             authors': map<nat, map<string, nat>>) {
    forall i: nat, a ::
      AuthorCount(authors', i, a) == AuthorCount(authors, i, a) + One(a == Author(c)) * Occurrences(files, i)
  }

  ghost predicate LastNotes(c: Commit, files: seq<nat>, last: map<nat, string>, last': map<nat, string>) {
    && last'.Keys == last.Keys + Elements(files)
    && forall i: nat :: i in last' ==> last'[i] == if i in last then last[i] else Author(c)
  }

  ghost predicate PairsAdd(files: seq<nat>, pairs: map<(nat, nat), nat>, pairs': map<(nat, nat), nat>) {
    forall k: (nat, nat) :: Get(pairs', k) == Get(pairs, k) + NewPairs(files, k)
  }

  lemma FreqStep(walked: set<string>, w: seq<Commit>, c: Commit, names: seq<string>, more: seq<string>, files: seq<nat>,
                 freq: map<nat, nat>, freq': map<nat, nat>)
    requires Extended(walked, w, c, names, more, files) && FreqOk(walked, w, names, freq)
    requires FreqAdds(files, freq, freq')
    ensures FreqOk(walked, w + [c], more, freq')
  {
    Snoc(w, c);
    forall i: nat ensures Get(freq', i) == if i < |more| then Freq(walked, w + [c], more[i]) else 0 {
      if |names| <= i < |more| {
        SeenIff(walked, w, more[i]);
      }
    }
  }

  lemma RevertsStep(walked: set<string>, w: seq<Commit>, c: Commit, names: seq<string>, more: seq<string>,
                    files: seq<nat>, reverts: map<nat, nat>, reverts': map<nat, nat>)
    requires Extended(walked, w, c, names, more, files) && RevertsOk(walked, w, names, reverts)
    requires RevertsAdd(c, files, reverts, reverts')
    ensures RevertsOk(walked, w + [c], more, reverts')
  {
    Snoc(w, c);
    forall i: nat ensures Get(reverts', i) == if i < |more| then Reverts(walked, w + [c], more[i]) else 0 {
      if |names| <= i < |more| {
        SeenIff(walked, w, more[i]);
        RevertsWithinFreq(walked, w, more[i]);
      }
    }
  }

  lemma AuthorsStep(walked: set<string>, w: seq<Commit>, c: Commit, names: seq<string>, more: seq<string>,
                    files: seq<nat>, authors: map<nat, map<string, nat>>, authors': map<nat, map<string, nat>>)
    requires Extended(walked, w, c, names, more, files) && AuthorsOk(walked, w, names, authors)
    requires AuthorsAdd(c, files, authors, authors')
    ensures AuthorsOk(walked, w + [c], more, authors')
  {
    Snoc(w, c);
    forall i: nat, a
      ensures AuthorCount(authors', i, a) == if i < |more| then AuthorFreq(walked, w + [c], more[i], a) else 0
    {
      if |names| <= i < |more| {
        SeenIff(walked, w, more[i]);
        AuthorsWithinFreq(walked, w, more[i], a);
      }
    }
  }

  lemma LastStep(walked: set<string>, w: seq<Commit>, c: Commit, names: seq<string>, more: seq<string>, files: seq<nat>,
                 last: map<nat, string>, last': map<nat, string>)
    requires Extended(walked, w, c, names, more, files) && LastOk(walked, w, names, last)
    requires forall i: nat :: |names| <= i < |more| ==> more[i] in Files(walked, c)
    requires LastNotes(c, files, last, last')
    ensures LastOk(walked, w + [c], more, last')
  {
    Snoc(w, c);
    forall i: nat
      ensures i in last' <==> i < |more|
      ensures i < |more| ==> LatestAuthor(walked, w + [c], more[i]) == Some(last'[i])
    {
      OccursIff(files, i);
      assert i in Elements(files) <==> i in files;
      if i < |more| {
        SeenIff(walked, w, more[i]);
        OccursIff(Files(walked, c), more[i]);
      }
    }
  }

  /** What the pair loop adds for one commit. */
  ghost function NewPairs(files: seq<nat>, k: (nat, nat)): nat {
    if PairsCount(|files|) then PairOcc(Sort(files, NatLe), k) else 0
  }

  lemma NoPairsWithout(sorted: seq<nat>, i: nat, j: nat)
    requires SortedBy(sorted, NatLe) && (i !in sorted || j !in sorted)
    ensures PairOcc(sorted, (i, j)) == 0
  {
    SortedPairOcc(sorted, i, j);
    OccursIff(sorted, i);
    OccursIff(sorted, j);
    assert Triangle(0) == 0;
  }

  lemma NoPairsOutside(files: seq<nat>, i: nat, j: nat)
    requires i !in files || j !in files
    ensures PairOcc(Sort(files, NatLe), (i, j)) == 0
  {
    SortSorts(files, NatLe);
    SameElements(Sort(files, NatLe), files);
    NoPairsWithout(Sort(files, NatLe), i, j);
  }

  lemma NewPairsAt(more: seq<string>, files: seq<nat>, paths: seq<string>, i: nat, j: nat)
    requires Distinct(more) && Indexes(more, files, paths)
    ensures NewPairs(files, (i, j)) ==
      if i <= j < |more| && PairsCount(|paths|) then Joint(paths, more[i], more[j]) else 0
  {
    if i < |more| && j < |more| {
      SortedPairs(more, files, paths, i, j);
    } else {
      NoPairsOutside(files, i, j);
    }
  }

  lemma PairFreqSnoc(walked: set<string>, w: seq<Commit>, c: Commit, a: string, b: string)
    ensures PairFreq(walked, w + [c], a, b) ==
      PairFreq(walked, w, a, b) + if PairsCount(|Files(walked, c)|) then Joint(Files(walked, c), a, b) else 0
  {
    Snoc(w, c);
  }

  lemma PairsStepAt(walked: set<string>, w: seq<Commit>, c: Commit, names: seq<string>, more: seq<string>,
                    files: seq<nat>, pairs: map<(nat, nat), nat>, i: nat, j: nat)
    requires Extended(walked, w, c, names, more, files) && PairsOk(walked, w, names, pairs)
    requires Distinct(more) && Indexes(more, files, Files(walked, c))
    ensures Get(pairs, (i, j)) + NewPairs(files, (i, j)) ==
      if i <= j < |more| then PairFreq(walked, w + [c], more[i], more[j]) else 0
  {
    NewPairsAt(more, files, Files(walked, c), i, j);
    if i <= j < |more| {
      PairFreqSnoc(walked, w, c, more[i], more[j]);
      if |names| <= j {
        UnseenPair(walked, w, more[j], more[i]);
      }
    }
  }

  lemma PairsStep(walked: set<string>, w: seq<Commit>, c: Commit, names: seq<string>, more: seq<string>,
                  files: seq<nat>, pairs: map<(nat, nat), nat>, pairs': map<(nat, nat), nat>)
    requires Extended(walked, w, c, names, more, files) && PairsOk(walked, w, names, pairs)
    requires Distinct(more) && Indexes(more, files, Files(walked, c))
    requires PairsAdd(files, pairs, pairs')
    ensures PairsOk(walked, w + [c], more, pairs')
  {
    forall i: nat, j: nat
      ensures Get(pairs', (i, j)) == if i <= j < |more| then PairFreq(walked, w + [c], more[i], more[j]) else 0
    {
      PairsStepAt(walked, w, c, names, more, files, pairs, i, j);
    }
  }

  // ----- The pass over history

  method AddPairs(files: seq<nat>, pairs0: map<(nat, nat), nat>) returns (pairs: map<(nat, nat), nat>)
    requires Positive(pairs0)
    ensures Positive(pairs)
    ensures PairsAdd(files, pairs0, pairs)
  {
    pairs := pairs0;
    if |files| > 1 && |files| <= MAX_COMMIT_FILES {
      pairs := CountPairs(Sort(files, NatLe), pairs);
    }
  }

  method AddReverts(c: Commit, files: seq<nat>, reverts0: map<nat, nat>) returns (reverts: map<nat, nat>)
    requires Positive(reverts0)
    ensures Positive(reverts)
    ensures RevertsAdd(c, files, reverts0, reverts)
  {
    reverts := reverts0;
    if IsRevert(c) {
      reverts := CountAll(files, reverts);
    }
  }

  /** Every counter of `t` went up by what one commit with these files contributes. */
  ghost predicate CountedIn(c: Commit, files: seq<nat>, t: Tally, u: Tally) {
    && FreqAdds(files, t.freq, u.freq) && AuthorsAdd(c, files, t.authors, u.authors)
    && RevertsAdd(c, files, t.reverts, u.reverts)
    && LastNotes(c, files, t.last, u.last) && PairsAdd(files, t.pairs, u.pairs)
  }

  ghost predicate CountsOk(walked: set<string>, w: seq<Commit>, t: Tally) {
    FreqOk(walked, w, t.names, t.freq) && AuthorsOk(walked, w, t.names, t.authors) &&
      RevertsOk(walked, w, t.names, t.reverts)
  }

  lemma CountsStep(walked: set<string>, w: seq<Commit>, c: Commit, files: seq<nat>, t: Tally, u: Tally)
    requires Extended(walked, w, c, t.names, u.names, files) && CountsOk(walked, w, t) && CountedIn(c, files, t, u)
    ensures CountsOk(walked, w + [c], u)
  {
    FreqStep(walked, w, c, t.names, u.names, files, t.freq, u.freq);
    AuthorsStep(walked, w, c, t.names, u.names, files, t.authors, u.authors);
    RevertsStep(walked, w, c, t.names, u.names, files, t.reverts, u.reverts);
  }

  /** Counters that went up that way are the totals over the window with that commit. */
  lemma TotalsStep(walked: set<string>, w: seq<Commit>, c: Commit, files: seq<nat>, t: Tally, u: Tally)
    requires TallyOk(walked, w, t) && CountedIn(c, files, t, u)
    requires Interned(u.names, u.intern, Flat(walked, w) + Files(walked, c)) &&
      Indexes(u.names, files, Files(walked, c))
    ensures CountsOk(walked, w + [c], u)
    ensures LastOk(walked, w + [c], u.names, u.last) && PairsOk(walked, w + [c], u.names, u.pairs)
  {
    InternGrows(walked, w, c, t.names, u.names, files);
    NewNamesTouched(walked, w, c, t.names, u.names);
    CountsStep(walked, w, c, files, t, u);
    LastStep(walked, w, c, t.names, u.names, files, t.last, u.last);
    PairsStep(walked, w, c, t.names, u.names, files, t.pairs, u.pairs);
  }

  lemma NewNamesTouched(walked: set<string>, w: seq<Commit>, c: Commit, names: seq<string>, more: seq<string>)
    requires names == FirstSeen(Flat(walked, w)) && more == FirstSeen(Flat(walked, w) + Files(walked, c))
    ensures forall i: nat :: |names| <= i < |more| ==> more[i] in Files(walked, c)
  {
    forall i: nat | |names| <= i < |more| ensures more[i] in Files(walked, c) {
      NewNamesUnseen(Flat(walked, w), Files(walked, c), i);
      assert more[i] in Flat(walked, w) + Files(walked, c);
    }
  }

  /** Process one commit. */
  method AddCommit(walked: set<string>, ghost w: seq<Commit>, c: Commit, t: Tally) returns (t': Tally)
    requires TallyOk(walked, w, t)
    ensures TallyOk(walked, w + [c], t')
  {
    var files, names, intern, renames := CollectFiles(walked, c.deltas, t.names, t.intern, Flat(walked, w));
    var freq, authors := CountFiles(files, Author(c), t.freq, t.authors);
    var last := NoteAuthor(files, Author(c), t.last);
    var pairs := AddPairs(files, t.pairs);
    var reverts := AddReverts(c, files, t.reverts);
    t' := Tally(names, intern, freq, last, authors, reverts, pairs, t.renames + renames);
    TotalsStep(walked, w, c, files, t, t');
    Snoc(w, c);
  }

  lemma NothingSeen(walked: set<string>)
    ensures TallyOk(walked, [], Tally([], map[], map[], map[], map[], map[], map[], []))
  {
    assert SumOf(map[]) == 0;
  }

  lemma NonMergeSnoc(visits: seq<Visit>, k: nat)
    requires k < |visits|
    ensures NonMerge(visits[..k + 1]) == NonMerge(visits[..k]) + if Counted(visits[k]) then [visits[k].commit] else []
  {
    assert visits[..k + 1][..k] == visits[..k];
  }

  lemma WindowReached(visits: seq<Visit>, k: nat)
    requires k <= |visits| && |NonMerge(visits[..k])| <= MAX_COMMITS
    requires k == |visits| || |NonMerge(visits[..k])| == MAX_COMMITS
    ensures NonMerge(visits[..k]) == Window(visits)
  {
    NonMergePrefix(visits, k);
    if k == |visits| {
      assert visits[..k] == visits;
    }
  }

  /** Walk the history until it ends or the cap on processed commits is reached. */
  method Walk(walked: set<string>, visits: seq<Visit>) returns (t: Tally)
    ensures TallyOk(walked, Window(visits), t)
  {
    t := Tally([], map[], map[], map[], map[], map[], map[], []);
    NothingSeen(walked);
    ghost var w: seq<Commit> := [];
    var processed, k := 0, 0;
    while k < |visits| && processed < MAX_COMMITS
      invariant k <= |visits| && w == NonMerge(visits[..k]) && processed == |w| <= MAX_COMMITS
      invariant TallyOk(walked, w, t)
    {
      NonMergeSnoc(visits, k);
      if Counted(visits[k]) {
        t := AddCommit(walked, w, visits[k].commit, t);
        w := w + [visits[k].commit];
        processed := processed + 1;
      }
      k := k + 1;
    }
    WindowReached(visits, k);
  }

  // ----- The report

  datatype GitSignals = GitSignals(
    changeFrequency: map<string, nat>, lastAuthors: map<string, string>, hotspots: seq<string>,
    renames: seq<(string, string)>, coChangePairs: seq<Pair>,
    revertCounts: map<string, nat>, authorCounts: map<string, map<string, nat>>)

  /** The pair makes up at least 70% of the rarer file's changes. */
  predicate Correlated(count: nat, freqA: nat, freqB: nat) {
    var rarer := if freqA < freqB then freqA else freqB;
    rarer != 0 && 10 * count >= 7 * rarer
  }

  /** `p` is reported: both files are in the window, the first one seen first, the count is
      their joint total, and the pair is correlated. */
  ghost predicate Listed(walked: set<string>, w: seq<Commit>, p: Pair) {
    && (exists i, j :: 0 <= i <= j < |FirstSeen(Flat(walked, w))|
         && FirstSeen(Flat(walked, w))[i] == p.a && FirstSeen(Flat(walked, w))[j] == p.b)
    && p.count == PairFreq(walked, w, p.a, p.b) > 0
    && Correlated(p.count, Freq(walked, w, p.a), Freq(walked, w, p.b))
  }

  /** Larger counts first, then by path. */
  predicate PairLe(x: Pair, y: Pair) {
    if x.count != y.count then x.count > y.count
    else if x.a != y.a then StringLe(x.a, y.a)
    else StringLe(x.b, y.b)
  }

  /** Larger frequencies first, then by path. */
  predicate HotLe(x: (string, nat), y: (string, nat)) {
    if x.1 != y.1 then x.1 > y.1 else StringLe(x.0, y.0)
  }

  /** Size of the hotspot tier: a tenth of the files, rounded up, at least one. */
  function HotspotCutoff(n: nat): nat {
    if (n + 9) / 10 < 1 then 1 else (n + 9) / 10
  }

  /** The hotspots are the top tenth, in order: no other file comes before any of them. */
  ghost predicate IsHotspots(freq: map<string, nat>, hotspots: seq<string>) {
    && Distinct(hotspots)
    && |hotspots| == (if freq == map[] then 0 else HotspotCutoff(|freq|))
    && (forall h :: h in hotspots ==> h in freq)
    && (forall h, p :: h in hotspots && p in freq && p !in hotspots ==> HotLe((h, freq[h]), (p, freq[p])))
    && (forall i, j :: 0 <= i < j < |hotspots| ==>
         HotLe((hotspots[i], freq[hotspots[i]]), (hotspots[j], freq[hotspots[j]])))
  }

  /** The map reports a total exactly for the paths that have one. */
  ghost predicate FreqReported(walked: set<string>, w: seq<Commit>, m: map<string, nat>) {
    && (forall p :: p in m <==> Freq(walked, w, p) > 0)
    && (forall p :: p in m ==> m[p] == Freq(walked, w, p))
  }

  ghost predicate LastReported(walked: set<string>, w: seq<Commit>, m: map<string, string>) {
    && (forall p :: p in m <==> Freq(walked, w, p) > 0)
    && (forall p :: p in m ==> LatestAuthor(walked, w, p) == Some(m[p]))
  }

  ghost predicate RevertsReported(walked: set<string>, w: seq<Commit>, m: map<string, nat>) {
    && (forall p :: p in m <==> Reverts(walked, w, p) > 0)
    && (forall p :: p in m ==> m[p] == Reverts(walked, w, p))
  }

  ghost predicate AuthorsReported(walked: set<string>, w: seq<Commit>, m: map<string, map<string, nat>>) {
    && (forall p :: p in m <==> Freq(walked, w, p) > 0)
    && (forall p, a :: p in m ==> Get(m[p], a) == AuthorFreq(walked, w, p, a))
    && (forall p :: p in m ==> Positive(m[p]) && SumOf(m[p]) == Freq(walked, w, p))
  }

  ghost predicate PairsReported(walked: set<string>, w: seq<Commit>, pairs: seq<Pair>) {
    && Distinct(pairs) && SortedBy(pairs, PairLe)
    && forall p :: p in pairs <==> Listed(walked, w, p)
  }

  ghost predicate IsReport(walked: set<string>, w: seq<Commit>, r: GitSignals) {
    && FreqReported(walked, w, r.changeFrequency)
    && LastReported(walked, w, r.lastAuthors)
    && RevertsReported(walked, w, r.revertCounts)
    && AuthorsReported(walked, w, r.authorCounts)
    && PairsReported(walked, w, r.coChangePairs)
    && IsHotspots(r.changeFrequency, r.hotspots)
    && r.renames == Renames(walked, w)
  }

  /** Replace numbers by paths. */
  function ByName<V>(names: seq<string>, m: map<nat, V>): map<string, V>
    requires Distinct(names) && forall i: nat :: i in m ==> i < |names|
  {
    map i | i in m :: names[i] := m[i]
  }

  lemma {:induction false} ImageSize(names: seq<string>, keys: set<nat>)
    requires Distinct(names) && forall i: nat :: i in keys ==> i < |names|
    ensures |set i | i in keys :: names[i]| == |keys|
    decreases |keys|
  {
    var image := set i | i in keys :: names[i];
    if keys != {} {
      var k :| k in keys;
      ImageSize(names, keys - {k});
      assert image == (set i | i in keys - {k} :: names[i]) + {names[k]};
    }
  }

  /** No two numbers share a path, so converting back loses no entry. */
  lemma ByNameLosesNothing<V>(names: seq<string>, m: map<nat, V>)
    requires Distinct(names) && forall i: nat :: i in m ==> i < |names|
    ensures |ByName(names, m)| == |m|
  {
    ImageSize(names, m.Keys);
    assert ByName(names, m).Keys == set i | i in m.Keys :: names[i];
  }

  lemma PairOrder()
    ensures TotalPreorder(PairLe)
  {
    StringOrder();
  }

  lemma HotOrder()
    ensures TotalPreorder(HotLe)
  {
    StringOrder();
  }

  /** Some listing of a set. */
  method ListSet<T(==)>(s: set<T>) returns (r: seq<T>)
    ensures Distinct(r) && Elements(r) == s
  {
    r := [];
    var rest := s;
    while rest != {}
      invariant rest <= s && Distinct(r) && Elements(r) == s - rest
    {
      var x :| x in rest;
      assert x !in Elements(r) && Elements(r + [x]) == Elements(r) + {x};
      r := r + [x];
      rest := rest - {x};
    }
  }

  ghost predicate TopOf(freq: map<string, nat>, files: seq<(string, nat)>) {
    && Distinct(files) && (forall f :: f in files <==> f.0 in freq && f.1 == freq[f.0])
    && SortedBy(files, HotLe)
  }

  /** Every path with its frequency, in any order. */
  method ListFiles(freq: map<string, nat>) returns (all: seq<(string, nat)>)
    ensures Distinct(all) && |all| == |freq|
    ensures forall f :: f in all <==> f.0 in freq && f.1 == freq[f.0]
  {
    var paths := ListSet(freq.Keys);
    assert forall i :: 0 <= i < |paths| ==> paths[i] in Elements(paths);
    all := seq(|paths|, i requires 0 <= i < |paths| => (paths[i], Get(freq, paths[i])));
    DistinctSize(paths);
    forall f ensures f in all <==> f.0 in freq && f.1 == freq[f.0] {
      if f.0 in freq && f.1 == freq[f.0] {
        assert f.0 in Elements(paths);
        var i :| 0 <= i < |paths| && paths[i] == f.0;
        assert all[i] == f;
      }
    }
  }

  method SortFiles(freq: map<string, nat>) returns (files: seq<(string, nat)>)
    ensures TopOf(freq, files) && |files| == |freq|
  {
    var all := ListFiles(freq);
    files := Sort(all, HotLe);
    HotOrder();
    SortSorts(all, HotLe);
    SameElements(files, all);
    DistinctRearranged(all, files);
  }

  /** The top tenth by frequency. */
  method Hotspots(freq: map<string, nat>) returns (hotspots: seq<string>)
    ensures IsHotspots(freq, hotspots)
  {
    if freq == map[] {
      return [];
    }
    var files := SortFiles(freq);
    var cutoff := HotspotCutoff(|files|);
    assert cutoff <= |files|;
    hotspots := seq(cutoff, i requires 0 <= i < cutoff => files[i].0);
    forall i | 0 <= i < cutoff ensures hotspots[i] in freq && files[i] == (hotspots[i], freq[hotspots[i]]) {
      assert files[i] in files;
    }
    forall h, p | h in hotspots && p in freq && p !in hotspots ensures HotLe((h, freq[h]), (p, freq[p])) {
      var i :| 0 <= i < cutoff && hotspots[i] == h;
      assert (p, freq[p]) in files;
      var j :| 0 <= j < |files| && files[j] == (p, freq[p]);
      assert j >= cutoff;
    }
  }

  function PairAt(t: Tally, k: (nat, nat)): Pair
    requires k in t.pairs && k.0 < |t.names| && k.1 < |t.names|
  {
    Pair(t.names[k.0], t.names[k.1], t.pairs[k])
  }

  predicate Kept(t: Tally, k: (nat, nat))
    requires k in t.pairs
  {
    Correlated(t.pairs[k], Get(t.freq, k.0), Get(t.freq, k.1))
  }

  ghost predicate KeysInRange(t: Tally) {
    Distinct(t.names) && forall k :: k in t.pairs ==> k.0 <= k.1 < |t.names|
  }

  /** Filter the pair counters and translate them to paths. */
  method FilterPairs(t: Tally) returns (pairs: seq<Pair>)
    requires KeysInRange(t)
    ensures Distinct(pairs)
    ensures forall p :: p in pairs <==> exists k :: k in t.pairs && Kept(t, k) && PairAt(t, k) == p
  {
    var keys := ListSet(t.pairs.Keys);
    assert forall i :: 0 <= i < |keys| ==> keys[i] in Elements(keys);
    pairs := [];
    for n := 0 to |keys|
      invariant Distinct(pairs)
      invariant forall p :: p in pairs <==> exists i :: 0 <= i < n && Kept(t, keys[i]) && PairAt(t, keys[i]) == p
    {
      var k := keys[n];
      if Kept(t, k) {
        forall i | 0 <= i < n && Kept(t, keys[i]) ensures PairAt(t, keys[i]) != PairAt(t, k) {
          assert keys[i] != keys[n];
        }
        assert PairAt(t, k) !in pairs;
        pairs := pairs + [PairAt(t, k)];
      }
    }
    forall p ensures p in pairs <==> exists k :: k in t.pairs && Kept(t, k) && PairAt(t, k) == p {
      if k :| k in t.pairs && Kept(t, k) && PairAt(t, k) == p {
        assert k in Elements(keys);
        var i :| 0 <= i < |keys| && keys[i] == k;
      }
    }
  }

  lemma KeptIsListed(walked: set<string>, w: seq<Commit>, t: Tally, k: (nat, nat))
    requires TallyOk(walked, w, t) && KeysInRange(t) && k in t.pairs && Kept(t, k)
    ensures Listed(walked, w, PairAt(t, k))
  {
    assert Get(t.pairs, (k.0, k.1)) == t.pairs[k];
    assert Get(t.freq, k.0) == Freq(walked, w, t.names[k.0]) && Get(t.freq, k.1) == Freq(walked, w, t.names[k.1]);
  }

  lemma ListedIsKept(walked: set<string>, w: seq<Commit>, t: Tally, p: Pair) returns (k: (nat, nat))
    requires TallyOk(walked, w, t) && KeysInRange(t) && Listed(walked, w, p)
    ensures k in t.pairs && Kept(t, k) && PairAt(t, k) == p
  {
    var i: nat, j: nat :| i <= j < |t.names| && t.names[i] == p.a && t.names[j] == p.b;
    k := (i, j);
    assert Get(t.pairs, (i, j)) == p.count;
    assert Get(t.freq, i) == Freq(walked, w, p.a) && Get(t.freq, j) == Freq(walked, w, p.b);
  }

  lemma TallyInRange(walked: set<string>, w: seq<Commit>, t: Tally)
    requires TallyOk(walked, w, t)
    ensures KeysInRange(t)
    ensures forall i: nat :: i in t.freq ==> i < |t.names|
    ensures forall i: nat :: i in t.last ==> i < |t.names|
    ensures forall i: nat :: i in t.reverts ==> i < |t.names|
    ensures forall i: nat :: i in t.authors ==> i < |t.names|
  {
    forall k: (nat, nat) | k in t.pairs ensures k.0 <= k.1 < |t.names| {
      assert Get(t.pairs, (k.0, k.1)) > 0;
    }
    forall i: nat | i in t.freq ensures i < |t.names| {
      assert Get(t.freq, i) > 0;
    }
    forall i: nat | i in t.reverts ensures i < |t.names| {
      assert Get(t.reverts, i) > 0;
    }
  }

  method ReportPairs(ghost walked: set<string>, ghost w: seq<Commit>, t: Tally) returns (pairs: seq<Pair>)
    requires TallyOk(walked, w, t)
    ensures PairsReported(walked, w, pairs)
  {
    TallyInRange(walked, w, t);
    var kept := FilterPairs(t);
    pairs := Sort(kept, PairLe);
    PairOrder();
    SortSorts(kept, PairLe);
    SameElements(pairs, kept);
    DistinctRearranged(kept, pairs);
    forall p ensures p in pairs <==> Listed(walked, w, p) {
      if k: (nat, nat) :| k in t.pairs && Kept(t, k) && PairAt(t, k) == p {
        KeptIsListed(walked, w, t, k);
      }
      if Listed(walked, w, p) {
        var k := ListedIsKept(walked, w, t, p);
      }
    }
  }

  lemma ByNameAt<V>(names: seq<string>, m: map<nat, V>, p: string)
    requires Distinct(names) && forall i: nat :: i in m ==> i < |names|
    ensures p !in names ==> p !in ByName(names, m)
    ensures forall i: nat :: i < |names| && names[i] == p ==>
      (p in ByName(names, m) <==> i in m) && (i in m ==> ByName(names, m)[p] == m[i])
  {
  }

  lemma NamesAreSeen(walked: set<string>, w: seq<Commit>, t: Tally, p: string)
    requires TallyOk(walked, w, t)
    ensures p in t.names <==> Freq(walked, w, p) > 0
  {
    SeenIff(walked, w, p);
  }

  lemma FreqByName(walked: set<string>, w: seq<Commit>, t: Tally)
    requires TallyOk(walked, w, t) && forall i: nat :: i in t.freq ==> i < |t.names|
    ensures FreqReported(walked, w, ByName(t.names, t.freq))
  {
    var m := ByName(t.names, t.freq);
    forall p ensures p in m <==> Freq(walked, w, p) > 0 ensures p in m ==> m[p] == Freq(walked, w, p) {
      NamesAreSeen(walked, w, t, p);
      ByNameAt(t.names, t.freq, p);
      if p in t.names {
        assert Get(t.freq, t.intern[p]) == Freq(walked, w, p);
      }
    }
  }

  lemma LastByName(walked: set<string>, w: seq<Commit>, t: Tally)
    requires TallyOk(walked, w, t) && forall i: nat :: i in t.last ==> i < |t.names|
    ensures LastReported(walked, w, ByName(t.names, t.last))
  {
    var m := ByName(t.names, t.last);
    forall p ensures p in m <==> Freq(walked, w, p) > 0 ensures p in m ==> LatestAuthor(walked, w, p) == Some(m[p]) {
      NamesAreSeen(walked, w, t, p);
      ByNameAt(t.names, t.last, p);
      if p in t.names {
        assert t.intern[p] in t.last;
      }
    }
  }

  lemma RevertsByName(walked: set<string>, w: seq<Commit>, t: Tally)
    requires TallyOk(walked, w, t) && forall i: nat :: i in t.reverts ==> i < |t.names|
    ensures RevertsReported(walked, w, ByName(t.names, t.reverts))
  {
    var m := ByName(t.names, t.reverts);
    forall p ensures p in m <==> Reverts(walked, w, p) > 0 ensures p in m ==> m[p] == Reverts(walked, w, p) {
      NamesAreSeen(walked, w, t, p);
      RevertsWithinFreq(walked, w, p);
      ByNameAt(t.names, t.reverts, p);
      if p in t.names {
        assert Get(t.reverts, t.intern[p]) == Reverts(walked, w, p);
      }
    }
  }

  lemma AuthorsByName(walked: set<string>, w: seq<Commit>, t: Tally)
    requires TallyOk(walked, w, t) && forall i: nat :: i in t.authors ==> i < |t.names|
    ensures AuthorsReported(walked, w, ByName(t.names, t.authors))
  {
    var m := ByName(t.names, t.authors);
    forall p
      ensures p in m <==> Freq(walked, w, p) > 0
      ensures p in m ==> Positive(m[p]) && SumOf(m[p]) == Freq(walked, w, p)
      ensures p in m ==> forall a :: Get(m[p], a) == AuthorFreq(walked, w, p, a)
    {
      NamesAreSeen(walked, w, t, p);
      ByNameAt(t.names, t.authors, p);
      if p in t.names {
        var i := t.intern[p];
        assert Get(t.freq, i) == Freq(walked, w, p);
        assert i in t.freq && i in t.authors && AuthorsAt(t.authors, i) == m[p];
        forall a ensures Get(m[p], a) == AuthorFreq(walked, w, p, a) {
          assert AuthorCount(t.authors, i, a) == Get(m[p], a);
        }
      }
    }
  }

  /** Mine a history: everything reported is a total over the first MAX_COMMITS readable
      non-merge commits. */
  method MineHistory(walked: set<string>, visits: seq<Visit>) returns (r: GitSignals)
    ensures IsReport(walked, Window(visits), r)
  {
    ghost var w := Window(visits);
    var t := Walk(walked, visits);
    TallyInRange(walked, w, t);
    var frequency := ByName(t.names, t.freq);
    var hotspots := Hotspots(frequency);
    var pairs := ReportPairs(walked, w, t);
    r := GitSignals(frequency, ByName(t.names, t.last), hotspots, t.renames, pairs,
                    ByName(t.names, t.reverts), ByName(t.names, t.authors));
    FreqByName(walked, w, t);
    LastByName(walked, w, t);
    RevertsByName(walked, w, t);
    AuthorsByName(walked, w, t);
  }
}
