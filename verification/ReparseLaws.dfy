/** Reparsing once more in plain numbers: what counts as a change, how stale a change makes a
    record and its gotchas, and what a new record holds. */
module ReparseLaws {
  import opened Common
  import opened Reparse

  // ----- What counts as a change

  /** The public names of a parse: its entry points and exported types. */
  function Names(a: Analysis): set<string> {
    Elements(a.entryPoints + a.exportedTypes)
  }

  /** Elements of exactly one of two sets. */
  function Changed(a: set<string>, b: set<string>): set<string> {
    (a - b) + (b - a)
  }

  ghost predicate TodosDiffer(a: seq<Todo>, b: seq<Todo>) {
    |a| != |b| || exists i :: 0 <= i < |a| && (a[i].text != b[i].text || a[i].line != b[i].line)
  }

  /** Distance of two counts on the circle of 32-bit numbers. */
  function Gap(x: U32, y: U32): nat {
    var d := if x < y then y - x else x - y;
    if d <= 0x8000_0000 then d else 0x1_0000_0000 - d
  }

  /** A file record shows the structure of a parse exactly when it has the same public names and
      imports, the same to-do comments by text and line, and the same two counts. */
  lemma StructureMeans(records: map<string, Record>, path: string, a: Analysis)
    requires ("file:" + path) in records && records["file:" + path].payload.Some?
    ensures var fr := records["file:" + path].payload.value;
      Shows(records, path, a) <==>
        && Changed(Elements(fr.entryPoints), Names(a)) == {} && Changed(Elements(fr.imports), Elements(a.imports)) == {}
        && !TodosDiffer(fr.todos, a.todos) && fr.unsafeCount == a.unsafeCount && fr.unwrapCount == a.unwrapCount
  {
    var fr := records["file:" + path].payload.value;
    EmptyDiffMeans(fr, a);
    PublicNames(a);
    DifferencesEmpty(Elements(fr.entryPoints), Names(a));
    DifferencesEmpty(Elements(fr.imports), Elements(a.imports));
  }

  // ----- How stale a change makes a record

  /** The points a change is worth, before the cap. */
  ghost function Points(fr: FileRecord, a: Analysis): real {
    0.15 * |Changed(Elements(fr.entryPoints), Names(a))| as real
    + 0.10 * |Changed(Elements(fr.imports), Elements(a.imports))| as real
    + (if TodosDiffer(fr.todos, a.todos) then 0.05 else 0.0)
    + 0.10 * Gap(a.unsafeCount, fr.unsafeCount) as real
    + 0.05 * Gap(a.unwrapCount, fr.unwrapCount) as real
  }

  lemma GapMeans(x: U32, y: U32)
    ensures Abs(Delta32(x, y)) == Gap(x, y)
  {
  }

  lemma ChangedSize(a: set<string>, b: set<string>)
    ensures |Changed(a, b)| == |a - b| + |b - a|
  {
    assert (a - b) !! (b - a);
  }

  lemma DiffCounts(fr: FileRecord, a: Analysis)
    ensures var d := ComputeDiff(fr, a);
      && EntryChanges(d) == |Changed(Elements(fr.entryPoints), Names(a))|
      && ImportChanges(d) == |Changed(Elements(fr.imports), Elements(a.imports))|
      && (d.todosChanged <==> TodosDiffer(fr.todos, a.todos))
      && Abs(d.unsafeDelta) == Gap(a.unsafeCount, fr.unsafeCount)
      && Abs(d.unwrapDelta) == Gap(a.unwrapCount, fr.unwrapCount)
  {
    PublicNames(a);
    ChangedSize(Elements(fr.entryPoints), Names(a));
    ChangedSize(Elements(fr.imports), Elements(a.imports));
    GapMeans(a.unsafeCount, fr.unsafeCount);
    GapMeans(a.unwrapCount, fr.unwrapCount);
  }

  lemma IncrementIsPoints(fr: FileRecord, a: Analysis)
    ensures Increment(ComputeDiff(fr, a)) == Points(fr, a)
  {
    DiffCounts(fr, a);
  }

  lemma StaledMeans(o: Staleness, fr: FileRecord, a: Analysis, now: nat, points: real)
    requires !IsEmpty(ComputeDiff(fr, a)) && points == Points(fr, a)
    ensures var n := Staled(o, ComputeDiff(fr, a), now);
      var rise := if points < 0.4 then points else 0.4;
      && n.value == (if o.value + rise < 1.0 then o.value + rise else 1.0)
      && n.computedAt == now && TierMatches(n)
  {
    IncrementIsPoints(fr, a);
    TierOfMatches(Staled(o, ComputeDiff(fr, a), now));
  }

  /** A change of structure raises a record's staleness by its points, at most by 0.4 and never
      above 1, and stamps it with the time. */
  lemma StalenessAfterChange(records: map<string, Record>, a: Analysis, size: nat, path: string, now: nat,
                             deviceId: nat, points: real)
    requires ("file:" + path) in records && records["file:" + path].payload.Some? && !Shows(records, path, a)
    requires points == Points(records["file:" + path].payload.value, a)
    ensures var o, n := records["file:" + path].staleness, Own(records, Parsed(a, size), path, now, deviceId).staleness;
      var rise := if points < 0.4 then points else 0.4;
      && n.value == (if o.value + rise < 1.0 then o.value + rise else 1.0)
      && n.computedAt == now && TierMatches(n)
  {
    var r := records["file:" + path];
    StaledMeans(r.staleness, r.payload.value, a, now, points);
  }

  /** The tier is the one the value falls into. */
  predicate TierMatches(s: Staleness) {
    && (s.tier == Fresh <==> s.value < 0.2)
    && (s.tier == Aging <==> 0.2 <= s.value < 0.4)
    && (s.tier == Stale <==> 0.4 <= s.value < 0.7)
    && (s.tier == Liability <==> 0.7 <= s.value < 0.9)
    && (s.tier == Tombstone <==> 0.9 <= s.value)
  }

  lemma TierOfMatches(s: Staleness)
    requires s.tier == TierOf(s.value)
    ensures TierMatches(s)
  {
  }

  /** The signals a change leaves, in order. */
  ghost function SignalsOf(fr: FileRecord, a: Analysis): seq<Signal> {
    var names := |Changed(Elements(fr.entryPoints), Names(a))|;
    var imports := |Changed(Elements(fr.imports), Elements(a.imports))|;
    (if names > 0 then [EntryPointsChanged(names)] else [])
    + (if imports > 0 then [ImportsChanged(imports)] else [])
    + (if TodosDiffer(fr.todos, a.todos) then [TodosChanged] else [])
    + (if a.unsafeCount != fr.unsafeCount then [UnsafeCountChanged(Delta32(a.unsafeCount, fr.unsafeCount))] else [])
    + (if a.unwrapCount != fr.unwrapCount then [UnwrapCountChanged(Delta32(a.unwrapCount, fr.unwrapCount))] else [])
  }

  /** The signed differences that signals report are right modulo 2^32 and fit 32 bits. */
  lemma SignedDifference(x: U32, y: U32)
    ensures -0x8000_0000 <= Delta32(x, y) < 0x8000_0000
    ensures (x - y - Delta32(x, y)) % 0x1_0000_0000 == 0
  {
  }

  /** The newest twenty signals are kept. */
  lemma SignalsAfterChange(records: map<string, Record>, a: Analysis, size: nat, path: string, now: nat, deviceId: nat)
    requires ("file:" + path) in records && records["file:" + path].payload.Some? && !Shows(records, path, a)
    ensures var o, n := records["file:" + path].staleness, Own(records, Parsed(a, size), path, now, deviceId).staleness;
      var all := o.signals + SignalsOf(records["file:" + path].payload.value, a);
      n.signals == if |all| <= 20 then all else all[|all| - 20..]
  {
    var fr := records["file:" + path].payload.value;
    NewSignalsMean(fr, a);
  }

  lemma NewSignalsMean(fr: FileRecord, a: Analysis)
    ensures NewSignals(ComputeDiff(fr, a)) == SignalsOf(fr, a)
  {
    DiffCounts(fr, a);
    DeltaZero(a.unsafeCount, fr.unsafeCount);
    DeltaZero(a.unwrapCount, fr.unwrapCount);
  }

  /** For example, a record at 0.35 whose file replaces one entry point by another and changes
      nothing else goes to 0.65. */
  lemma ReplacedEntryPoint(records: map<string, Record>, a: Analysis, size: nat, path: string, now: nat, deviceId: nat,
                           f: string, g: string)
    requires ("file:" + path) in records && records["file:" + path].payload.Some?
    requires records["file:" + path].staleness.value == 0.35
    requires var fr := records["file:" + path].payload.value;
      && fr.entryPoints == [g] && a.entryPoints == [f] && a.exportedTypes == [] && f != g
      && fr.imports == a.imports && fr.todos == a.todos
      && fr.unsafeCount == a.unsafeCount && fr.unwrapCount == a.unwrapCount
    ensures var n := Own(records, Parsed(a, size), path, now, deviceId).staleness;
      n.value == 0.65 && n.tier == Stale
  {
    var fr := records["file:" + path].payload.value;
    OneReplaced(fr, a, f, g);
    StructureMeans(records, path, a);
    StalenessAfterChange(records, a, size, path, now, deviceId, 0.30);
  }

  lemma OneReplaced(fr: FileRecord, a: Analysis, f: string, g: string)
    requires fr.entryPoints == [g] && a.entryPoints == [f] && a.exportedTypes == [] && f != g
    requires fr.imports == a.imports && fr.todos == a.todos
    requires fr.unsafeCount == a.unsafeCount && fr.unwrapCount == a.unwrapCount
    ensures Points(fr, a) == 0.30 && Changed(Elements(fr.entryPoints), Names(a)) == {f, g}
  {
    assert a.entryPoints + a.exportedTypes == [f];
    assert Changed(Elements(fr.entryPoints), Names(a)) == {f, g};
    assert Changed(Elements(fr.imports), Elements(a.imports)) == {};
  }

  // ----- Linked gotchas

  /** A cascade raises a gotcha's staleness by 0.10 per link, and never above 1. */
  lemma {:induction false} CascadeRaises(records: map<string, Record>, keys: seq<string>, path: string, now: nat,
                                         k: string)
    requires k in records && records[k].staleness.value <= 1.0
    ensures k in Cascaded(records, keys, path, now)
    ensures var o, n := records[k].staleness, Cascaded(records, keys, path, now)[k].staleness;
      var sum := o.value + 0.10 * Occurrences(keys, k) as real;
      n.value == if sum < 1.0 then sum else 1.0
    decreases |keys|
  {
    if keys == [] {
    } else {
      var n := |keys| - 1;
      CascadeRaises(records, keys[..n], path, now, k);
      CascadeCountsLinks(records, keys[..n], path, now, keys[n]);
      assert keys == keys[..n] + [keys[n]];
      OccurrencesAppend(keys[..n], [keys[n]], k);
      assert [keys[n]][1..] == [];
    }
  }

  /** Each link also leaves its signal, with the newest twenty kept, and the matching tier. */
  lemma LinkMeans(r: Record, path: string, now: nat)
    ensures var all := r.staleness.signals + [LinkedFileChanged(path)];
      Linked(r, path, now).staleness.signals == if |all| <= 20 then all else all[|all| - 20..]
    ensures TierMatches(Linked(r, path, now).staleness) && Linked(r, path, now).staleness.computedAt == now
    ensures Linked(r, path, now) == r.(staleness := Linked(r, path, now).staleness, updatedAt := now,
                                       logicalClock := r.logicalClock + 1, wallClock := now)
  {
    TierOfMatches(Linked(r, path, now).staleness);
  }

  // ----- New and rebuilt records

  /** A file record built from a parse alone: its structure, a token per four bytes, and no
      enrichment. */
  predicate Bare(fr: FileRecord, path: string, a: Analysis, size: nat, now: nat) {
    && fr.path == path && fr.purpose == "" && fr.imports == a.imports && fr.todos == a.todos
    && Elements(fr.entryPoints) == Names(a) && |fr.entryPoints| == |Names(a)|
    && fr.gotchaKeys == [] && fr.decisionKeys == [] && fr.lastAuthor == None && !fr.isHotspot && fr.changeFrequency == 0
    && fr.unsafeCount == a.unsafeCount && fr.unwrapCount == a.unwrapCount
    && fr.contentHash == a.contentHash && fr.lineCount == a.lineCount && fr.lastModified == now
    && fr.tokenCost == (if size / 4 < 4294967296 then size / 4 else 4294967295)
    && fr.blastRadius == None && fr.propagated == None
  }

  lemma BuildIsBare(path: string, a: Analysis, size: nat, now: nat)
    ensures Bare(Build(path, a, size, now), path, a, size, now)
  {
    PublicNames(a);
    DistinctSize(PublicApi(a));
  }

  /** A file without a record gets a bare, fresh one with a clock of 1. */
  lemma NewRecordMeans(records: map<string, Record>, a: Analysis, size: nat, path: string, now: nat, deviceId: nat)
    requires ("file:" + path) !in records
    ensures var after := Reparsed(records, Parsed(a, size), path, now, deviceId);
      && after.Keys == records.Keys + {"file:" + path}
      && var r := after["file:" + path];
         && r.key == "file:" + path && r.value == "" && r.logicalClock == 1 && r.deviceId == deviceId
         && r.createdAt == now && r.updatedAt == now && r.wallClock == now
         && r.staleness.value == 0.0 && r.staleness.tier == Fresh && r.staleness.signals == []
         && r.payload.Some? && Bare(r.payload.value, path, a, size, now)
  {
    BuildIsBare(path, a, size, now);
  }

  /** A record without a usable payload gets a bare one and keeps its staleness. */
  lemma RebuiltRecordMeans(records: map<string, Record>, a: Analysis, size: nat, path: string, now: nat, deviceId: nat)
    requires ("file:" + path) in records && records["file:" + path].payload.None?
    ensures var o, n := records["file:" + path], Own(records, Parsed(a, size), path, now, deviceId);
      && n.payload.Some? && Bare(n.payload.value, path, a, size, now)
      && n == o.(payload := n.payload, value := "", updatedAt := now,
                 logicalClock := o.logicalClock + 1, wallClock := now)
  {
    BuildIsBare(path, a, size, now);
  }

  /** A recorded file that is gone gets value 1, the tombstone tier and one more signal, and keeps
      everything else. */
  lemma GoneRecordMeans(records: map<string, Record>, path: string, now: nat, deviceId: nat)
    requires ("file:" + path) in records
    ensures var o, n := records["file:" + path], Own(records, Missing, path, now, deviceId);
      && n.staleness == Staleness(1.0, Tombstone, o.staleness.signals + [FileDeleted], now)
      && n == o.(staleness := n.staleness, updatedAt := now, logicalClock := o.logicalClock + 1, wallClock := now)
  {
  }
}
