/** Incremental reparse of one file: the version that writes the store and the staged version
    that only computes the record to write. */
module Reparse {
  import opened Common

  type U32 = n: nat | n < 0x1_0000_0000

  datatype Todo = Todo(text: string, line: U32, kind: nat)

  /** What the parser reports for a file. */
  datatype Analysis = Analysis(
    entryPoints: seq<string>, exportedTypes: seq<string>, imports: seq<string>, todos: seq<Todo>,
    unsafeCount: U32, unwrapCount: U32, contentHash: Option<string>, lineCount: U32)

  /** The file on disk: gone, present but not parseable, or parsed. */
  datatype Disk = Missing | Unparsable | Parsed(analysis: Analysis, size: nat)

  datatype FileRecord = FileRecord(
    path: string, purpose: string, entryPoints: seq<string>, imports: seq<string>,
    gotchaKeys: seq<string>, decisionKeys: seq<string>, todos: seq<Todo>,
    unsafeCount: U32, unwrapCount: U32, changeFrequency: U32, lastAuthor: Option<string>, isHotspot: bool,
    tokenCost: U32, lastModified: nat, contentHash: Option<string>, lineCount: U32,
    blastRadius: Option<string>, propagated: Option<string>)

  datatype StalenessTier = Fresh | Aging | Stale | Liability | Tombstone

  datatype Signal =
    | FileDeleted | EntryPointsChanged(n: nat) | ImportsChanged(n: nat) | TodosChanged
    | UnsafeCountChanged(delta: int) | UnwrapCountChanged(delta: int) | LinkedFileChanged(path: string)

  datatype Staleness = Staleness(value: real, tier: StalenessTier, signals: seq<Signal>, computedAt: nat)

  /** A stored record. The payload is absent when it is missing or is not a file record; `rest`
      stands for the fields that reparsing never touches. */
  datatype Record = Record(
    key: string, value: string, payload: Option<FileRecord>, createdAt: nat, updatedAt: nat,
    staleness: Staleness, deviceId: nat, logicalClock: nat, wallClock: nat, rest: string)

  const FRESH: Staleness := Staleness(0.0, Fresh, [], 0)
  const LAYER0: string := "layer0"

  /** Entry points and exported types, each once. */
  function PublicApi(a: Analysis): seq<string> {
    FirstSeen(a.entryPoints + a.exportedTypes)
  }

  function TokenCost(size: nat): U32 {
    if size / 4 < 0x1_0000_0000 then size / 4 else 0xFFFF_FFFF
  }

  // ----- Structural diff

  datatype Diff = Diff(
    entryAdded: set<string>, entryRemoved: set<string>, importsAdded: set<string>, importsRemoved: set<string>,
    todosChanged: bool, unsafeDelta: int, unwrapDelta: int)

  predicate IsEmpty(d: Diff) {
    && d.entryAdded == {} && d.entryRemoved == {} && d.importsAdded == {} && d.importsRemoved == {}
    && !d.todosChanged && d.unsafeDelta == 0 && d.unwrapDelta == 0
  }

  /** Difference of two unsigned counts in wrapping 32-bit signed arithmetic. */
  function Delta32(new_: U32, old_: U32): int {
    var d := (new_ - old_ + 0x8000_0000) % 0x1_0000_0000;
    d - 0x8000_0000
  }

  predicate SameTodo(a: Todo, b: Todo) {
    a.text == b.text && a.line == b.line
  }

  predicate SameTodos(a: seq<Todo>, b: seq<Todo>) {
    |a| == |b| && forall i :: 0 <= i < |a| ==> SameTodo(a[i], b[i])
  }

  function ComputeDiff(old_: FileRecord, a: Analysis): Diff {
    var api := PublicApi(a);
    Diff(Elements(api) - Elements(old_.entryPoints), Elements(old_.entryPoints) - Elements(api),
         Elements(a.imports) - Elements(old_.imports), Elements(old_.imports) - Elements(a.imports),
         !SameTodos(old_.todos, a.todos),
         Delta32(a.unsafeCount, old_.unsafeCount), Delta32(a.unwrapCount, old_.unwrapCount))
  }

  /** The diff is empty exactly when the record shows the same public names, imports, to-do
      comments and counts as the analysis. */
  lemma EmptyDiffMeans(old_: FileRecord, a: Analysis)
    ensures IsEmpty(ComputeDiff(old_, a)) <==>
      && Elements(old_.entryPoints) == Elements(PublicApi(a))
      && Elements(old_.imports) == Elements(a.imports)
      && SameTodos(old_.todos, a.todos)
      && old_.unsafeCount == a.unsafeCount && old_.unwrapCount == a.unwrapCount
  {
    DifferencesEmpty(Elements(old_.entryPoints), Elements(PublicApi(a)));
    DifferencesEmpty(Elements(old_.imports), Elements(a.imports));
    DeltaZero(a.unsafeCount, old_.unsafeCount);
    DeltaZero(a.unwrapCount, old_.unwrapCount);
  }

  lemma DifferencesEmpty(a: set<string>, b: set<string>)
    ensures a - b == {} && b - a == {} <==> a == b
  {
    if a - b == {} && b - a == {} {
      forall x ensures x in a <==> x in b {
        assert x !in a - b && x !in b - a;
      }
    }
  }

  lemma DeltaZero(a: U32, b: U32)
    ensures Delta32(a, b) == 0 <==> a == b
  {
  }

  // ----- Staleness

  const MAX_REPARSE_INCREMENT: real := 0.4
  const MAX_SIGNALS: nat := 20
  const CASCADE_WEIGHT: real := 0.10

  function Abs(x: int): nat { if x < 0 then -x else x }

  function MinReal(a: real, b: real): real { if a < b then a else b }

  function TierOf(value: real): StalenessTier {
    if value < 0.2 then Fresh else if value < 0.4 then Aging else if value < 0.7 then Stale
    else if value < 0.9 then Liability else Tombstone
  }

  /** Keep the newest MAX_SIGNALS signals. */
  function Newest(signals: seq<Signal>): seq<Signal> {
    if |signals| > MAX_SIGNALS then signals[|signals| - MAX_SIGNALS..] else signals
  }

  function EntryChanges(d: Diff): nat { |d.entryAdded| + |d.entryRemoved| }
  function ImportChanges(d: Diff): nat { |d.importsAdded| + |d.importsRemoved| }

  function NewSignals(d: Diff): seq<Signal> {
    (if EntryChanges(d) > 0 then [EntryPointsChanged(EntryChanges(d))] else [])
    + (if ImportChanges(d) > 0 then [ImportsChanged(ImportChanges(d))] else [])
    + (if d.todosChanged then [TodosChanged] else [])
    + (if d.unsafeDelta != 0 then [UnsafeCountChanged(d.unsafeDelta)] else [])
    + (if d.unwrapDelta != 0 then [UnwrapCountChanged(d.unwrapDelta)] else [])
  }

  function Increment(d: Diff): real {
    EntryChanges(d) as real * 0.15 + ImportChanges(d) as real * 0.10 + (if d.todosChanged then 0.05 else 0.0)
    + Abs(d.unsafeDelta) as real * 0.10 + Abs(d.unwrapDelta) as real * 0.05
  }

  /** `apply_reparse_staleness`. */
  function Staled(s: Staleness, d: Diff, now: nat): Staleness {
    if IsEmpty(d) then s
    else
      var value := MinReal(s.value + MinReal(Increment(d), MAX_REPARSE_INCREMENT), 1.0);
      Staleness(value, TierOf(value), Newest(s.signals + NewSignals(d)), now)
  }

  // ----- The staged version

  function Build(path: string, a: Analysis, size: nat, now: nat): FileRecord {
    FileRecord(path, "", PublicApi(a), a.imports, [], [], a.todos, a.unsafeCount, a.unwrapCount, 0, None, false,
               TokenCost(size), now, a.contentHash, a.lineCount, None, None)
  }

  function Bumped(r: Record, now: nat): Record {
    r.(updatedAt := now, logicalClock := r.logicalClock + 1, wallClock := now)
  }

  function Merged(path: string, old_: FileRecord, a: Analysis, size: nat, now: nat): FileRecord {
    FileRecord(path, old_.purpose, PublicApi(a), a.imports, old_.gotchaKeys, old_.decisionKeys, a.todos,
               a.unsafeCount, a.unwrapCount, old_.changeFrequency, old_.lastAuthor, old_.isHotspot,
               TokenCost(size), now, a.contentHash, a.lineCount, old_.blastRadius, old_.propagated)
  }

  /** `reparse_staged`: the record to write for the file, if any. */
  function Staged(records: map<string, Record>, disk: Disk, path: string, now: nat, deviceId: nat): Option<Record> {
    var key := FileKey(path);
    match disk
    case Missing =>
      if key !in records then None
      else
        var r := records[key];
        var gone := Staleness(1.0, Tombstone, r.staleness.signals + [FileDeleted], now);
        Some(Bumped(r.(staleness := gone), now))
    case Unparsable => None
    case Parsed(a, size) =>
      if key !in records then
        var fr := Build(path, a, size, now);
        Some(Record(key, fr.purpose, Some(fr), now, now, FRESH, deviceId, 1, now, LAYER0))
      else
        var r := records[key];
        if r.payload.None? then
          var fr := Build(path, a, size, now);
          Some(Bumped(r.(value := fr.purpose, payload := Some(fr)), now))
        else
          var diff := ComputeDiff(r.payload.value, a);
          if IsEmpty(diff) then None
          else
            var fr := Merged(path, r.payload.value, a, size, now);
            Some(Bumped(r.(value := fr.purpose, payload := Some(fr), staleness := Staled(r.staleness, diff, now)), now))
  }

  // ----- The writing version

  /** One linked gotcha made staler because its file changed. */
  function Linked(r: Record, path: string, now: nat): Record {
    var value := MinReal(r.staleness.value + CASCADE_WEIGHT, 1.0);
    var s := Staleness(value, TierOf(value), Newest(r.staleness.signals + [LinkedFileChanged(path)]), now);
    Bumped(r.(staleness := s), now)
  }

  function Cascaded(records: map<string, Record>, keys: seq<string>, path: string, now: nat): map<string, Record> {
    if keys == [] then records
    else
      var before := Cascaded(records, keys[..|keys| - 1], path, now);
      var k := keys[|keys| - 1];
      if k in before then before[k := Linked(before[k], path, now)] else before
  }

  /** The records after the linked gotchas of a changed file were made staler. */
  function AfterCascade(records: map<string, Record>, disk: Disk, path: string, now: nat): map<string, Record> {
    var key := FileKey(path);
    if disk.Parsed? && key in records && records[key].payload.Some? &&
      !IsEmpty(ComputeDiff(records[key].payload.value, disk.analysis))
    then Cascaded(records, records[key].payload.value.gotchaKeys, path, now)
    else records
  }

  /** The whole store after one reparse. */
  function Reparsed(records: map<string, Record>, disk: Disk, path: string, now: nat, deviceId: nat)
    : map<string, Record>
  {
    var staged := Staged(records, disk, path, now, deviceId);
    if staged.None? then records else AfterCascade(records, disk, path, now)[FileKey(path) := staged.value]
  }

  lemma SignalsWhenChanged(d: Diff)
    requires !IsEmpty(d)
    ensures NewSignals(d) != []
  {
    if EntryChanges(d) == 0 {
      assert d.entryAdded == {} && d.entryRemoved == {};
    }
    if ImportChanges(d) == 0 {
      assert d.importsAdded == {} && d.importsRemoved == {};
    }
  }

  class Store {
    var records: map<string, Record>

    constructor (records: map<string, Record>)
      ensures this.records == records
    {
      this.records := records;
    }

    method Put(key: string, r: Record)
      modifies this
      ensures records == old(records)[key := r]
    {
      records := records[key := r];
    }

    /** Make every linked gotcha staler, in link order. */
    method Cascade(fr: FileRecord, now: nat)
      modifies this
      ensures records == Cascaded(old(records), fr.gotchaKeys, fr.path, now)
    {
      ghost var before := records;
      for i := 0 to |fr.gotchaKeys|
        invariant records == Cascaded(before, fr.gotchaKeys[..i], fr.path, now)
      {
        assert fr.gotchaKeys[..i + 1][..i] == fr.gotchaKeys[..i];
        var k := fr.gotchaKeys[i];
        if k in records {
          Put(k, Linked(records[k], fr.path, now));
        }
      }
      assert fr.gotchaKeys[..|fr.gotchaKeys|] == fr.gotchaKeys;
    }

    /** `reparse_impl`: the file's own record ends up exactly as the staged version computes it,
        every other record is untouched except for the cascade, and nothing at all is written
        when the staged version yields nothing. */
    method Reparse(disk: Disk, path: string, now: nat, deviceId: nat)
      modifies this
      ensures records == Reparsed(old(records), disk, path, now, deviceId)
    {
      var key := FileKey(path);
      if disk.Missing? {
        if key in records {
          var record := records[key];
          record := record.(staleness := record.staleness.(value := 1.0, tier := Tombstone));
          record := record.(staleness := record.staleness.(signals := record.staleness.signals + [FileDeleted]));
          record := record.(staleness := record.staleness.(computedAt := now));
          record := Bumped(record, now);
          Put(key, record);
        }
        return;
      }
      if disk.Unparsable? {
        return;
      }
      var analysis := disk.analysis;
      if key !in records {
        var fr := Build(path, analysis, disk.size, now);
        Put(key, Record(key, fr.purpose, Some(fr), now, now, FRESH, deviceId, 1, now, LAYER0));
        return;
      }
      var record := records[key];
      if record.payload.None? {
        var fr := Build(path, analysis, disk.size, now);
        record := record.(value := fr.purpose);
        record := record.(payload := Some(fr));
        Put(key, Bumped(record, now));
        return;
      }
      var diff := ComputeDiff(record.payload.value, analysis);
      if IsEmpty(diff) {
        return;
      }
      var merged := Merged(path, record.payload.value, analysis, disk.size, now);
      record := record.(value := merged.purpose);
      record := record.(payload := Some(merged));
      var signals := NewSignals(diff);
      record := record.(staleness := Staled(record.staleness, diff, now));
      record := Bumped(record, now);
      SignalsWhenChanged(diff);
      if signals != [] {
        Cascade(merged, now);
      }
      Put(key, record);
    }
  }

  // ----- Theorems

  lemma SameAnalysisNoDiff(fr: FileRecord, a: Analysis)
    requires fr.entryPoints == PublicApi(a) && fr.imports == a.imports && fr.todos == a.todos
    requires fr.unsafeCount == a.unsafeCount && fr.unwrapCount == a.unwrapCount
    ensures IsEmpty(ComputeDiff(fr, a))
  {
    EmptyDiffMeans(fr, a);
  }

  /** Reparsing an unchanged file again finds nothing to write exactly when the file is on disk
      or was never recorded, and then it changes nothing in the store; a recorded file that is
      gone is marked deleted once more by every reparse. */
  lemma SecondReparse(records: map<string, Record>, disk: Disk, path: string, now: nat, later: nat, deviceId: nat)
    ensures var after := Reparsed(records, disk, path, now, deviceId);
      && (Staged(after, disk, path, later, deviceId).None? <==> !disk.Missing? || FileKey(path) !in records)
      && (!disk.Missing? || FileKey(path) !in records ==> Reparsed(after, disk, path, later, deviceId) == after)
  {
    var key := FileKey(path);
    if disk.Parsed? {
      if key !in records || records[key].payload.None? {
        SameAnalysisNoDiff(Build(path, disk.analysis, disk.size, now), disk.analysis);
      } else {
        SameAnalysisNoDiff(Merged(path, records[key].payload.value, disk.analysis, disk.size, now), disk.analysis);
      }
    }
  }

  /** The cascade adds and removes no record, raises a record's clock once per link to it, and
      leaves every unlinked record as it was. */
  lemma {:induction false} CascadeCountsLinks(records: map<string, Record>, keys: seq<string>, path: string, now: nat,
                                              k: string)
    ensures k in Cascaded(records, keys, path, now) <==> k in records
    ensures k in records ==>
      Cascaded(records, keys, path, now)[k].logicalClock == records[k].logicalClock + Occurrences(keys, k)
    ensures k in records && k !in keys ==> Cascaded(records, keys, path, now)[k] == records[k]
    decreases |keys|
  {
    if keys == [] {
    } else {
      var n := |keys| - 1;
      CascadeCountsLinks(records, keys[..n], path, now, k);
      CascadeCountsLinks(records, keys[..n], path, now, keys[n]);
      assert keys == keys[..n] + [keys[n]];
      OccurrencesAppend(keys[..n], [keys[n]], k);
      assert [keys[n]][1..] == [];
    }
  }

  /** The gotchas linked from a file's record, when it has one. */
  function Links(records: map<string, Record>, path: string): seq<string> {
    var key := FileKey(path);
    if key in records && records[key].payload.Some? then records[key].payload.value.gotchaKeys else []
  }

  /** What a reparse does to the rest of the store: nothing to any record that the file does not
      link; a linked one is rewritten once per link or not at all; and no record ever goes. */
  lemma OtherRecordsKept(records: map<string, Record>, disk: Disk, path: string, now: nat, deviceId: nat, k: string)
    requires k in records && k != FileKey(path)
    ensures var after := Reparsed(records, disk, path, now, deviceId);
      && k in after
      && (k !in Links(records, path) ==> after[k] == records[k])
      && (after[k] == records[k] ||
          after[k].logicalClock == records[k].logicalClock + Occurrences(Links(records, path), k))
  {
    CascadeCountsLinks(records, Links(records, path), path, now, k);
  }

  /** Every rewrite of an existing record raises its logical clock by exactly one and keeps its
      identity; a merge keeps all enrichment and brings every structural field up to date. */
  lemma RewriteKeepsEnrichment(records: map<string, Record>, disk: Disk, path: string, now: nat, deviceId: nat)
    requires FileKey(path) in records && Staged(records, disk, path, now, deviceId).Some?
    ensures var o, n := records[FileKey(path)], Staged(records, disk, path, now, deviceId).value;
      && n.logicalClock == o.logicalClock + 1
      && n.key == o.key && n.deviceId == o.deviceId && n.createdAt == o.createdAt && n.rest == o.rest
      && (o.payload.Some? ==> n.payload.Some?)
    ensures var o, n := records[FileKey(path)], Staged(records, disk, path, now, deviceId).value;
      disk.Parsed? && o.payload.Some? ==>
        n.payload.value == o.payload.value.(
          path := path, entryPoints := PublicApi(disk.analysis), imports := disk.analysis.imports,
          todos := disk.analysis.todos,
          unsafeCount := disk.analysis.unsafeCount, unwrapCount := disk.analysis.unwrapCount,
          tokenCost := TokenCost(disk.size), lastModified := now,
          contentHash := disk.analysis.contentHash, lineCount := disk.analysis.lineCount)
  {
  }

  /** The store after a series of reparses of one file, on what the disk held at each time. */
  function AfterAll(records: map<string, Record>, runs: seq<(Disk, nat)>, path: string, deviceId: nat)
    : map<string, Record>
    decreases |runs|
  {
    if runs == [] then records
    else AfterAll(Reparsed(records, runs[0].0, path, runs[0].1, deviceId), runs[1..], path, deviceId)
  }

  /** How many of them wrote. */
  function Writes(records: map<string, Record>, runs: seq<(Disk, nat)>, path: string, deviceId: nat): nat
    decreases |runs|
  {
    if runs == [] then 0
    else
      (if Staged(records, runs[0].0, path, runs[0].1, deviceId).Some? then 1 else 0)
      + Writes(Reparsed(records, runs[0].0, path, runs[0].1, deviceId), runs[1..], path, deviceId)
  }

  /** Over any series of reparses, deletions and parse failures included, the logical clock
      counts the writes, and the record is never lost. */
  lemma {:induction false} ClockCountsWrites(records: map<string, Record>, runs: seq<(Disk, nat)>, path: string,
                                             deviceId: nat)
    requires FileKey(path) in records
    ensures FileKey(path) in AfterAll(records, runs, path, deviceId)
    ensures AfterAll(records, runs, path, deviceId)[FileKey(path)].logicalClock ==
      records[FileKey(path)].logicalClock + Writes(records, runs, path, deviceId)
    decreases |runs|
  {
    if runs == [] {
    } else {
      if Staged(records, runs[0].0, path, runs[0].1, deviceId).Some? {
        RewriteKeepsEnrichment(records, runs[0].0, path, runs[0].1, deviceId);
      }
      ClockCountsWrites(Reparsed(records, runs[0].0, path, runs[0].1, deviceId), runs[1..], path, deviceId);
    }
  }

  lemma IncrementPositive(d: Diff)
    ensures Increment(d) >= 0.0
  {
    assert EntryChanges(d) as real * 0.15 >= 0.0 && ImportChanges(d) as real * 0.10 >= 0.0;
    assert Abs(d.unsafeDelta) as real * 0.10 >= 0.0 && Abs(d.unwrapDelta) as real * 0.05 >= 0.0;
  }

  lemma {:induction false} AfterAllSplit(records: map<string, Record>, a: seq<(Disk, nat)>, b: seq<(Disk, nat)>,
                                         path: string, deviceId: nat)
    ensures AfterAll(records, a + b, path, deviceId) ==
      AfterAll(AfterAll(records, a, path, deviceId), b, path, deviceId)
    decreases |a|
  {
    if a == [] {
      assert a + b == b;
    } else {
      assert (a + b)[1..] == a[1..] + b;
      AfterAllSplit(Reparsed(records, a[0].0, path, a[0].1, deviceId), a[1..], b, path, deviceId);
    }
  }

  /** The file's own record after a reparse. */
  function Own(records: map<string, Record>, disk: Disk, path: string, now: nat, deviceId: nat): Record
    requires FileKey(path) in records
  {
    Reparsed(records, disk, path, now, deviceId)[FileKey(path)]
  }

  // ----- What survives every series of reparses

  /** The fields of a file record that do not come from parsing. */
  function Enrichment(fr: FileRecord)
    : (string, seq<string>, seq<string>, (U32, Option<string>, bool), seq<Option<string>>)
  {
    (fr.purpose, fr.gotchaKeys, fr.decisionKeys, (fr.changeFrequency, fr.lastAuthor, fr.isHotspot),
     [fr.blastRadius, fr.propagated])
  }

  /** Same identity, and same enrichment if there was any. */
  predicate Keeps(o: Record, n: Record) {
    && n.key == o.key && n.deviceId == o.deviceId && n.createdAt == o.createdAt && n.rest == o.rest
    && (o.payload.Some? ==> n.payload.Some? && Enrichment(n.payload.value) == Enrichment(o.payload.value))
  }

  /** No series of edits, parse failures, deletions and returns loses a record's identity or
      anything that enrichment has added to it. */
  lemma {:induction false} EnrichmentSurvives(records: map<string, Record>, runs: seq<(Disk, nat)>, path: string,
                                              deviceId: nat)
    requires FileKey(path) in records
    ensures FileKey(path) in AfterAll(records, runs, path, deviceId)
    ensures Keeps(records[FileKey(path)], AfterAll(records, runs, path, deviceId)[FileKey(path)])
    decreases |runs|
  {
    if runs == [] {
    } else {
      assert Keeps(records[FileKey(path)], Own(records, runs[0].0, path, runs[0].1, deviceId));
      EnrichmentSurvives(Reparsed(records, runs[0].0, path, runs[0].1, deviceId), runs[1..], path, deviceId);
    }
  }

  /** The file is recorded and its record shows the structure of `a`. */
  predicate Shows(records: map<string, Record>, path: string, a: Analysis) {
    && FileKey(path) in records && records[FileKey(path)].payload.Some?
    && IsEmpty(ComputeDiff(records[FileKey(path)].payload.value, a))
  }

  /** Reparsing a readable file writes nothing exactly when its record shows its structure already. */
  lemma SilentIffShown(records: map<string, Record>, a: Analysis, size: nat, path: string, now: nat, deviceId: nat)
    ensures Staged(records, Parsed(a, size), path, now, deviceId).None? <==> Shows(records, path, a)
  {
  }

  lemma ParseShows(records: map<string, Record>, a: Analysis, size: nat, path: string, now: nat, deviceId: nat)
    ensures Shows(Reparsed(records, Parsed(a, size), path, now, deviceId), path, a)
  {
    var key := FileKey(path);
    if key !in records || records[key].payload.None? {
      SameAnalysisNoDiff(Build(path, a, size, now), a);
    } else {
      SameAnalysisNoDiff(Merged(path, records[key].payload.value, a, size, now), a);
    }
  }

  lemma {:induction false} StillShows(records: map<string, Record>, runs: seq<(Disk, nat)>, path: string, deviceId: nat,
                                      a: Analysis)
    requires Shows(records, path, a) && forall i :: 0 <= i < |runs| ==> !runs[i].0.Parsed?
    ensures Shows(AfterAll(records, runs, path, deviceId), path, a)
    decreases |runs|
  {
    if runs == [] {
    } else {
      assert !runs[0].0.Parsed?;
      StillShows(Reparsed(records, runs[0].0, path, runs[0].1, deviceId), runs[1..], path, deviceId, a);
    }
  }

  /** After any series the record shows the structure that was parsed last, whatever came before
      and however often the file was unreadable or missing since. */
  lemma ShowsLastParse(records: map<string, Record>, runs: seq<(Disk, nat)>, path: string, deviceId: nat, k: nat)
    requires k < |runs| && runs[k].0.Parsed? && forall i :: k < i < |runs| ==> !runs[i].0.Parsed?
    ensures Shows(AfterAll(records, runs, path, deviceId), path, runs[k].0.analysis)
  {
    var before, rest := runs[..k], runs[k..];
    assert runs == before + rest;
    AfterAllSplit(records, before, rest, path, deviceId);
    var mid := AfterAll(records, before, path, deviceId);
    ParseShows(mid, runs[k].0.analysis, runs[k].0.size, path, runs[k].1, deviceId);
    assert forall i :: 0 <= i < |rest[1..]| ==> rest[1..][i] == runs[k + 1 + i];
    StillShows(Reparsed(mid, runs[k].0, path, runs[k].1, deviceId), rest[1..], path, deviceId, runs[k].0.analysis);
  }

  /** Two parses with the same public names, imports, to-do comments and counts. */
  predicate SameStructure(a: Analysis, b: Analysis) {
    && Elements(a.entryPoints + a.exportedTypes) == Elements(b.entryPoints + b.exportedTypes)
    && Elements(a.imports) == Elements(b.imports) && SameTodos(a.todos, b.todos)
    && a.unsafeCount == b.unsafeCount && a.unwrapCount == b.unwrapCount
  }

  lemma PublicNames(a: Analysis)
    ensures Elements(PublicApi(a)) == Elements(a.entryPoints + a.exportedTypes)
  {
    assert forall x :: x in PublicApi(a) <==> x in a.entryPoints + a.exportedTypes;
  }

  lemma ShownStructure(fr: FileRecord, a: Analysis, b: Analysis)
    requires IsEmpty(ComputeDiff(fr, a))
    ensures IsEmpty(ComputeDiff(fr, b)) <==> SameStructure(a, b)
  {
    EmptyDiffMeans(fr, a);
    EmptyDiffMeans(fr, b);
    PublicNames(a);
    PublicNames(b);
  }

  /** After any series, reparsing a readable file writes nothing exactly when its structure is the
      one parsed last: what was stored before, and how often, does not matter. */
  lemma SilentIffUnchanged(records: map<string, Record>, runs: seq<(Disk, nat)>, path: string, deviceId: nat,
                           k: nat, a: Analysis, size: nat, now: nat)
    requires k < |runs| && runs[k].0.Parsed? && forall i :: k < i < |runs| ==> !runs[i].0.Parsed?
    ensures Staged(AfterAll(records, runs, path, deviceId), Parsed(a, size), path, now, deviceId).None? <==>
      SameStructure(runs[k].0.analysis, a)
  {
    ShowsLastParse(records, runs, path, deviceId, k);
    var end := AfterAll(records, runs, path, deviceId);
    ShownStructure(end[FileKey(path)].payload.value, runs[k].0.analysis, a);
  }

  // ----- Fields that change without the structure

  /** Content hash, line count and token cost of a record. */
  function Prints(fr: FileRecord): (Option<string>, U32, U32) {
    (fr.contentHash, fr.lineCount, fr.tokenCost)
  }

  function PrintsOf(a: Analysis, size: nat): (Option<string>, U32, U32) {
    (a.contentHash, a.lineCount, TokenCost(size))
  }

  /** After one reparse these fields are those of the file exactly when the record did not show its
      structure yet, or had them already: a change that leaves the structure alone is not stored. */
  lemma PrintsCurrentIff(records: map<string, Record>, a: Analysis, size: nat, path: string, now: nat, deviceId: nat)
    ensures var after := Reparsed(records, Parsed(a, size), path, now, deviceId);
      && Shows(after, path, a)
      && (Prints(after[FileKey(path)].payload.value) == PrintsOf(a, size) <==>
          !Shows(records, path, a) || Prints(records[FileKey(path)].payload.value) == PrintsOf(a, size))
  {
    ParseShows(records, a, size, path, now, deviceId);
    SilentIffShown(records, a, size, path, now, deviceId);
  }

  /** Run `i` parsed the file and found a structure that the record did not show. */
  predicate Rewrites(records: map<string, Record>, runs: seq<(Disk, nat)>, path: string, deviceId: nat, i: nat)
    requires i < |runs|
  {
    runs[i].0.Parsed? && !Shows(AfterAll(records, runs[..i], path, deviceId), path, runs[i].0.analysis)
  }

  lemma {:induction false} PrintsKept(records: map<string, Record>, runs: seq<(Disk, nat)>, path: string, deviceId: nat)
    requires FileKey(path) in records && records[FileKey(path)].payload.Some?
    requires forall i: nat :: i < |runs| ==> !Rewrites(records, runs, path, deviceId, i)
    ensures var end := AfterAll(records, runs, path, deviceId);
      && FileKey(path) in end && end[FileKey(path)].payload.Some?
      && Prints(end[FileKey(path)].payload.value) == Prints(records[FileKey(path)].payload.value)
    decreases |runs|
  {
    if runs == [] {
    } else {
      var next := Reparsed(records, runs[0].0, path, runs[0].1, deviceId);
      assert !Rewrites(records, runs, path, deviceId, 0) && runs[..0] == [];
      forall i: nat | i < |runs[1..]| ensures !Rewrites(next, runs[1..], path, deviceId, i) {
        assert !Rewrites(records, runs, path, deviceId, i + 1);
        assert runs[..i + 1][1..] == runs[1..][..i];
      }
      PrintsKept(next, runs[1..], path, deviceId);
    }
  }

  /** After any series these fields are those of the last run that rewrote the structure, not of
      the last parse. */
  lemma PrintsOfLastRewrite(records: map<string, Record>, runs: seq<(Disk, nat)>, path: string, deviceId: nat, j: nat)
    requires j < |runs| && Rewrites(records, runs, path, deviceId, j)
    requires forall i: nat :: j < i < |runs| ==> !Rewrites(records, runs, path, deviceId, i)
    ensures var end := AfterAll(records, runs, path, deviceId);
      && FileKey(path) in end && end[FileKey(path)].payload.Some?
      && Prints(end[FileKey(path)].payload.value) == PrintsOf(runs[j].0.analysis, runs[j].0.size)
  {
    var before, rest := runs[..j], runs[j + 1..];
    var mid := AfterAll(records, before, path, deviceId);
    var next := Reparsed(mid, runs[j].0, path, runs[j].1, deviceId);
    PrintsCurrentIff(mid, runs[j].0.analysis, runs[j].0.size, path, runs[j].1, deviceId);
    assert runs == before + ([runs[j]] + rest);
    AfterAllSplit(records, before, [runs[j]] + rest, path, deviceId);
    assert ([runs[j]] + rest)[1..] == rest;
    forall i: nat | i < |rest| ensures !Rewrites(next, rest, path, deviceId, i) {
      assert !Rewrites(records, runs, path, deviceId, j + 1 + i);
      assert runs[..j + 1 + i] == before + ([runs[j]] + rest[..i]);
      AfterAllSplit(records, before, [runs[j]] + rest[..i], path, deviceId);
      assert ([runs[j]] + rest[..i])[1..] == rest[..i];
    }
    PrintsKept(next, rest, path, deviceId);
  }

  /** And a run rewrites exactly when its structure differs from the one parsed before it. */
  lemma RewritesIff(records: map<string, Record>, runs: seq<(Disk, nat)>, path: string, deviceId: nat, h: nat, i: nat)
    requires h < i < |runs| && runs[h].0.Parsed? && runs[i].0.Parsed?
    requires forall m :: h < m < i ==> !runs[m].0.Parsed?
    ensures Rewrites(records, runs, path, deviceId, i) <==> !SameStructure(runs[h].0.analysis, runs[i].0.analysis)
  {
    var a := runs[i].0.analysis;
    SilentIffUnchanged(records, runs[..i], path, deviceId, h, a, runs[i].0.size, runs[i].1);
    SilentIffShown(AfterAll(records, runs[..i], path, deviceId), a, runs[i].0.size, path, runs[i].1, deviceId);
  }

  /** For example, a new file that is then edited without changing its structure keeps the hash of
      its first version. */
  lemma HashLags(records: map<string, Record>, a: Analysis, b: Analysis, size: nat, path: string, deviceId: nat, t: nat,
                 u: nat)
    requires FileKey(path) !in records && SameStructure(a, b)
    ensures var end := AfterAll(records, [(Parsed(a, size), t), (Parsed(b, size), u)], path, deviceId);
      && FileKey(path) in end && end[FileKey(path)].payload.Some?
      && end[FileKey(path)].payload.value.contentHash == a.contentHash
  {
    var runs := [(Parsed(a, size), t), (Parsed(b, size), u)];
    assert runs[..0] == [];
    assert Rewrites(records, runs, path, deviceId, 0);
    RewritesIff(records, runs, path, deviceId, 0, 1);
    PrintsOfLastRewrite(records, runs, path, deviceId, 0);
  }

  // ----- Staleness over every series

  lemma StaledWithin(s: Staleness, d: Diff, now: nat)
    requires 0.0 <= s.value <= 1.0
    ensures s.value <= Staled(s, d, now).value <= 1.0
    ensures Staled(s, d, now).value <= s.value + MAX_REPARSE_INCREMENT
  {
    IncrementPositive(d);
  }

  /** A reparse never lowers a file's staleness. It raises it by at most 0.4 exactly unless it
      finds a recorded file gone whose staleness was below 0.6: a deletion jumps to 1. */
  lemma StalenessRises(records: map<string, Record>, disk: Disk, path: string, now: nat, deviceId: nat)
    requires FileKey(path) in records && 0.0 <= records[FileKey(path)].staleness.value <= 1.0
    ensures var o, n := records[FileKey(path)].staleness, Own(records, disk, path, now, deviceId).staleness;
      && o.value <= n.value <= 1.0
      && (n.value <= o.value + MAX_REPARSE_INCREMENT <==> !(disk.Missing? && o.value < 0.6))
  {
    var r := records[FileKey(path)];
    if disk.Parsed? && r.payload.Some? {
      StaledWithin(r.staleness, ComputeDiff(r.payload.value, disk.analysis), now);
    }
  }

  /** A record within the signal cap stays within it exactly unless it is full and its file is
      found gone: the deletion branch appends without dropping the oldest. */
  lemma SignalCap(records: map<string, Record>, disk: Disk, path: string, now: nat, deviceId: nat)
    requires FileKey(path) in records && |records[FileKey(path)].staleness.signals| <= MAX_SIGNALS
    ensures |Own(records, disk, path, now, deviceId).staleness.signals| <= MAX_SIGNALS <==>
      !(disk.Missing? && |records[FileKey(path)].staleness.signals| == MAX_SIGNALS)
  {
  }

  /** How many of the reparses found the file gone. */
  function Deletions(runs: seq<(Disk, nat)>): nat {
    if runs == [] then 0 else One(runs[0].0.Missing?) + Deletions(runs[1..])
  }

  /** So the history is not capped over a series: it may exceed the cap by one signal per
      reparse that finds the file gone, and by no more. */
  lemma {:induction false} SignalsBounded(records: map<string, Record>, runs: seq<(Disk, nat)>, path: string,
                                          deviceId: nat, bound: nat)
    requires FileKey(path) in records && MAX_SIGNALS <= bound && |records[FileKey(path)].staleness.signals| <= bound
    ensures FileKey(path) in AfterAll(records, runs, path, deviceId)
    ensures |AfterAll(records, runs, path, deviceId)[FileKey(path)].staleness.signals| <= bound + Deletions(runs)
    decreases |runs|
  {
    if runs == [] {
    } else {
      var next := Reparsed(records, runs[0].0, path, runs[0].1, deviceId);
      assert |next[FileKey(path)].staleness.signals| <= bound + One(runs[0].0.Missing?);
      SignalsBounded(next, runs[1..], path, deviceId, bound + One(runs[0].0.Missing?));
    }
  }

  /** And it does: every reparse of a recorded file that is gone adds one signal, without end. */
  lemma {:induction false} DeletionsPileUp(records: map<string, Record>, runs: seq<(Disk, nat)>, path: string,
                                           deviceId: nat)
    requires FileKey(path) in records && forall i :: 0 <= i < |runs| ==> runs[i].0.Missing?
    ensures FileKey(path) in AfterAll(records, runs, path, deviceId)
    ensures |AfterAll(records, runs, path, deviceId)[FileKey(path)].staleness.signals| ==
      |records[FileKey(path)].staleness.signals| + |runs|
    decreases |runs|
  {
    if runs == [] {
    } else {
      assert runs[0].0.Missing?;
      DeletionsPileUp(Reparsed(records, runs[0].0, path, runs[0].1, deviceId), runs[1..], path, deviceId);
    }
  }

  // ----- Tombstones

  predicate Tombstoned(s: Staleness) {
    s.tier == Tombstone && 0.9 <= s.value <= 1.0
  }

  lemma TombstoneStep(records: map<string, Record>, disk: Disk, path: string, now: nat, deviceId: nat)
    requires FileKey(path) in records && Tombstoned(records[FileKey(path)].staleness)
    ensures Tombstoned(Own(records, disk, path, now, deviceId).staleness)
    ensures records[FileKey(path)].staleness.value <= Own(records, disk, path, now, deviceId).staleness.value
  {
    StalenessRises(records, disk, path, now, deviceId);
  }

  /** No reparse ever clears a tombstone: not of an unchanged file, not of a changed one, not of
      a record whose payload had to be rebuilt, and no series of them. */
  lemma {:induction false} TombstoneIsFinal(records: map<string, Record>, runs: seq<(Disk, nat)>, path: string,
                                            deviceId: nat)
    requires FileKey(path) in records && Tombstoned(records[FileKey(path)].staleness)
    ensures FileKey(path) in AfterAll(records, runs, path, deviceId)
    ensures var end := AfterAll(records, runs, path, deviceId)[FileKey(path)].staleness;
      Tombstoned(end) && records[FileKey(path)].staleness.value <= end.value
    decreases |runs|
  {
    if runs == [] {
    } else {
      TombstoneStep(records, runs[0].0, path, runs[0].1, deviceId);
      TombstoneIsFinal(Reparsed(records, runs[0].0, path, runs[0].1, deviceId), runs[1..], path, deviceId);
    }
  }

  /** A file has a record exactly when it had one or was parsed at some point. */
  lemma {:induction false} RecordedIff(records: map<string, Record>, runs: seq<(Disk, nat)>, path: string,
                                       deviceId: nat)
    ensures FileKey(path) in AfterAll(records, runs, path, deviceId) <==>
      FileKey(path) in records || exists i :: 0 <= i < |runs| && runs[i].0.Parsed?
    decreases |runs|
  {
    if runs == [] {
    } else {
      assert runs == [runs[0]] + runs[1..];
      RecordedIff(Reparsed(records, runs[0].0, path, runs[0].1, deviceId), runs[1..], path, deviceId);
    }
  }

  /** So a recorded file that is found gone once is tombstoned, at value 1, after every series
      that goes on from there, however often it is parsed again. */
  lemma DeletedStaysTombstoned(records: map<string, Record>, runs: seq<(Disk, nat)>, path: string, deviceId: nat,
                               k: nat)
    requires k < |runs| && runs[k].0.Missing?
    requires FileKey(path) in records || exists i :: 0 <= i < k && runs[i].0.Parsed?
    ensures FileKey(path) in AfterAll(records, runs, path, deviceId)
    ensures var end := AfterAll(records, runs, path, deviceId)[FileKey(path)].staleness;
      end.tier == Tombstone && end.value == 1.0
  {
    var before, rest := runs[..k], runs[k..];
    assert runs == before + rest;
    AfterAllSplit(records, before, rest, path, deviceId);
    var mid := AfterAll(records, before, path, deviceId);
    RecordedIff(records, before, path, deviceId);
    if i :| 0 <= i < k && runs[i].0.Parsed? {
      assert before[i].0.Parsed?;
    }
    TombstoneIsFinal(Reparsed(mid, runs[k].0, path, runs[k].1, deviceId), rest[1..], path, deviceId);
  }
}
