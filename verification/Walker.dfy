/** The parallel file walker: visitor threads with private buffers, one channel, a final sort. */
module Walker {
  import opened Common
  import opened Ordering

  const FLUSH_THRESHOLD: nat := 32

  datatype WalkedFile = WalkedFile(absPath: string, relPath: string, language: string, size: nat, mtime: nat)

  /** What the directory walk hands to a visitor. */
  datatype DirEntry =
    | Failed
    | Entry(isFile: Option<bool>, insideGit: bool, binary: bool, readable: bool, file: WalkedFile)

  /** The entry is a readable, small enough, non-binary regular file outside .git. */
  predicate Accepts(e: DirEntry, maxSize: nat) {
    && e.Entry?
    && e.isFile == Some(true)
    && !e.insideGit && !e.binary && e.readable
    && e.file.size <= maxSize
  }

  function Kept(e: DirEntry, maxSize: nat): seq<WalkedFile> {
    if Accepts(e, maxSize) then [e.file] else []
  }

  // ----- One visitor

  class Channel {
    var sent: seq<WalkedFile>
    var open: bool

    constructor ()
      ensures sent == [] && open
    {
      sent, open := [], true;
    }
  }

  /** A visitor owned by one worker thread. */
  class FileVisitor {
    var local: seq<WalkedFile>
    const channel: Channel
    const maxSize: nat

    constructor (channel: Channel, maxSize: nat)
      ensures local == [] && this.channel == channel && this.maxSize == maxSize
    {
      this.channel, this.maxSize, local := channel, maxSize, [];
    }

    /** Empty the buffer into the channel; false when the receiver is gone. */
    method Flush() returns (ok: bool)
      modifies this`local, channel`sent
      ensures local == []
      ensures channel.open ==> ok && channel.sent == old(channel.sent) + old(local)
      ensures !channel.open ==> channel.sent == old(channel.sent) && (ok <==> old(local) == [])
    {
      var batch := local;
      local := [];
      ghost var before := channel.sent;
      for i := 0 to |batch|
        invariant local == [] && channel.open == old(channel.open)
        invariant channel.sent == before + batch[..i]
        invariant i > 0 ==> channel.open
      {
        if !channel.open {
          return false;
        }
        channel.sent := channel.sent + [batch[i]];
      }
      assert batch[..|batch|] == batch;
      ok := true;
    }

    /** Buffer an accepted file; flush when the buffer is full. With a live receiver nothing is
        lost or reordered: sent plus buffered grows by exactly the accepted file. */
    method Visit(e: DirEntry) returns (quit: bool)
      requires |local| < FLUSH_THRESHOLD
      modifies this`local, channel`sent
      ensures |local| < FLUSH_THRESHOLD && local == Visited(Thread(old(local), [], Visiting), e, maxSize).local
      ensures channel.open ==> !quit && channel.sent + local == old(channel.sent) + old(local) + Kept(e, maxSize)
      ensures !channel.open ==> channel.sent == old(channel.sent)
      ensures !channel.open ==> (quit <==> Accepts(e, maxSize) && old(|local|) + 1 == FLUSH_THRESHOLD)
    {
      quit := false;
      if Accepts(e, maxSize) {
        local := local + [e.file];
        if |local| >= FLUSH_THRESHOLD {
          var ok := Flush();
          quit := !ok;
        }
      }
    }

    /** The last flush, when the thread ends; nobody looks at its outcome. */
    method Drop()
      modifies this`local, channel`sent
      ensures local == []
      ensures channel.sent == old(channel.sent) + if channel.open then old(local) else []
    {
      var _ := Flush();
    }
  }

  // ----- Many visitors, interleaved send by send

  datatype Phase = Visiting | Flushing | Dropping | Dropped

  /** A thread's buffer, the batch it is sending, and where it stands. */
  datatype Thread = Thread(local: seq<WalkedFile>, batch: seq<WalkedFile>, phase: Phase)

  datatype State = State(todo: seq<DirEntry>, threads: seq<Thread>, received: seq<WalkedFile>)

  datatype Step = Take(t: nat, k: nat) | Send(t: nat) | FlushEnd(t: nat) | StartDrop(t: nat) | DropEnd(t: nat)

  predicate CanStep(s: State, step: Step) {
    && step.t < |s.threads|
    && var th := s.threads[step.t];
       match step
       case Take(_, k) => th.phase == Visiting && k < |s.todo|
       case Send(_) => (th.phase == Flushing || th.phase == Dropping) && th.batch != []
       case FlushEnd(_) => th.phase == Flushing && th.batch == []
       case StartDrop(_) => th.phase == Visiting && s.todo == []
       case DropEnd(_) => th.phase == Dropping && th.batch == []
  }

  /** Visiting one entry: buffer it if accepted, and start a flush when the buffer is full. */
  function Visited(th: Thread, e: DirEntry, maxSize: nat): Thread {
    var local := th.local + Kept(e, maxSize);
    if Accepts(e, maxSize) && |local| >= FLUSH_THRESHOLD then Thread([], local, Flushing) else th.(local := local)
  }

  function Do(s: State, step: Step, maxSize: nat): State
    requires CanStep(s, step)
  {
    var th := s.threads[step.t];
    match step
    case Take(t, k) =>
      s.(todo := s.todo[..k] + s.todo[k + 1..], threads := s.threads[t := Visited(th, s.todo[k], maxSize)])
    case Send(t) =>
      s.(threads := s.threads[t := th.(batch := th.batch[1..])], received := s.received + [th.batch[0]])
    case FlushEnd(t) => s.(threads := s.threads[t := th.(phase := Visiting)])
    case StartDrop(t) => s.(threads := s.threads[t := Thread([], th.local, Dropping)])
    case DropEnd(t) => s.(threads := s.threads[t := th.(phase := Dropped)])
  }

  predicate Valid(s: State, steps: seq<Step>, maxSize: nat)
    decreases |steps|
  {
    steps == [] || (CanStep(s, steps[0]) && Valid(Do(s, steps[0], maxSize), steps[1..], maxSize))
  }

  function Run(s: State, steps: seq<Step>, maxSize: nat): State
    requires Valid(s, steps, maxSize)
    decreases |steps|
  {
    if steps == [] then s else Run(Do(s, steps[0], maxSize), steps[1..], maxSize)
  }

  function Initial(entries: seq<DirEntry>, workers: nat): State {
    State(entries, seq(workers, _ => Thread([], [], Visiting)), [])
  }

  /** Nothing left to visit and every visitor dropped. */
  predicate Complete(s: State) {
    s.todo == [] && forall i :: 0 <= i < |s.threads| ==> s.threads[i].phase == Dropped
  }

  // ----- Conservation

  function AcceptedFiles(entries: seq<DirEntry>, maxSize: nat): seq<WalkedFile> {
    if entries == [] then [] else Kept(entries[0], maxSize) + AcceptedFiles(entries[1..], maxSize)
  }

  ghost function Held(th: Thread, f: WalkedFile): nat {
    Occurrences(th.local, f) + Occurrences(th.batch, f)
  }

  ghost function AllHeld(threads: seq<Thread>, f: WalkedFile): nat {
    if threads == [] then 0 else Held(threads[0], f) + AllHeld(threads[1..], f)
  }

  /** How often a file is accounted for: still to visit, held by a thread, or received. */
  ghost function Account(s: State, maxSize: nat, f: WalkedFile): nat {
    Occurrences(AcceptedFiles(s.todo, maxSize), f) + AllHeld(s.threads, f) + Occurrences(s.received, f)
  }

  lemma {:induction false} HeldUpdate(threads: seq<Thread>, i: nat, th: Thread, f: WalkedFile)
    requires i < |threads|
    ensures AllHeld(threads[i := th], f) + Held(threads[i], f) == AllHeld(threads, f) + Held(th, f)
  {
    if i > 0 {
      HeldUpdate(threads[1..], i - 1, th, f);
      assert threads[i := th][1..] == threads[1..][i - 1 := th];
    } else {
      assert threads[i := th][1..] == threads[1..];
    }
  }

  lemma {:induction false} AcceptedAppend(a: seq<DirEntry>, b: seq<DirEntry>, maxSize: nat)
    ensures AcceptedFiles(a + b, maxSize) == AcceptedFiles(a, maxSize) + AcceptedFiles(b, maxSize)
  {
    if a == [] {
      assert a + b == b;
    } else {
      assert (a + b)[1..] == a[1..] + b;
      AcceptedAppend(a[1..], b, maxSize);
    }
  }

  lemma AcceptedOne(e: DirEntry, maxSize: nat)
    ensures AcceptedFiles([e], maxSize) == Kept(e, maxSize)
  {
    assert [e][1..] == [];
  }

  lemma TakeOut(entries: seq<DirEntry>, k: nat, maxSize: nat, f: WalkedFile)
    requires k < |entries|
    ensures Occurrences(AcceptedFiles(entries, maxSize), f) ==
      Occurrences(AcceptedFiles(entries[..k] + entries[k + 1..], maxSize), f) +
        Occurrences(Kept(entries[k], maxSize), f)
  {
    var before, e, behind := entries[..k], entries[k], entries[k + 1..];
    assert entries == before + ([e] + behind);
    AcceptedAppend(before, [e] + behind, maxSize);
    AcceptedAppend([e], behind, maxSize);
    AcceptedAppend(before, behind, maxSize);
    AcceptedOne(e, maxSize);
    var x, y, z := AcceptedFiles(before, maxSize), Kept(e, maxSize), AcceptedFiles(behind, maxSize);
    OccurrencesAppend(x, y + z, f);
    OccurrencesAppend(y, z, f);
    OccurrencesAppend(x, z, f);
  }

  /** Between flushes a thread has no batch; buffers stay below the threshold. */
  ghost predicate ThreadOk(th: Thread) {
    && (th.phase == Visiting ==> th.batch == [])
    && (th.phase == Dropped ==> th.local == [] && th.batch == [])
    && (th.phase == Flushing || th.phase == Dropping ==> th.local == [])
    && |th.local| < FLUSH_THRESHOLD
  }

  /** No visitor is dropped while entries are left. */
  ghost predicate Inv(s: State) {
    && (forall i :: 0 <= i < |s.threads| ==> ThreadOk(s.threads[i]))
    && (s.todo != [] ==> forall i :: 0 <= i < |s.threads| ==> s.threads[i].phase in {Visiting, Flushing})
  }

  lemma StepKeepsInv(s: State, step: Step, maxSize: nat)
    requires Inv(s) && CanStep(s, step)
    ensures Inv(Do(s, step, maxSize))
  {
    assert ThreadOk(s.threads[step.t]);
    assert ThreadOk(Do(s, step, maxSize).threads[step.t]);
  }

  lemma VisitedHolds(th: Thread, e: DirEntry, maxSize: nat, f: WalkedFile)
    requires ThreadOk(th) && th.phase == Visiting
    ensures Held(Visited(th, e, maxSize), f) == Held(th, f) + Occurrences(Kept(e, maxSize), f)
  {
    OccurrencesAppend(th.local, Kept(e, maxSize), f);
  }

  lemma SendMoves(s: State, t: nat, maxSize: nat, f: WalkedFile)
    requires CanStep(s, Send(t))
    ensures Occurrences(Do(s, Send(t), maxSize).received, f) + Held(Do(s, Send(t), maxSize).threads[t], f) ==
      Occurrences(s.received, f) + Held(s.threads[t], f)
  {
    OccurrencesAppend(s.received, [s.threads[t].batch[0]], f);
  }

  /** No step loses, duplicates or invents a file. */
  lemma StepConserves(s: State, step: Step, maxSize: nat, f: WalkedFile)
    requires Inv(s) && CanStep(s, step)
    ensures Account(Do(s, step, maxSize), maxSize, f) == Account(s, maxSize, f)
  {
    var th := s.threads[step.t];
    assert ThreadOk(th);
    HeldUpdate(s.threads, step.t, Do(s, step, maxSize).threads[step.t], f);
    match step
    case Take(_, k) =>
      TakeOut(s.todo, k, maxSize, f);
      VisitedHolds(th, s.todo[k], maxSize, f);
    case Send(t) =>
      SendMoves(s, t, maxSize, f);
    case _ =>
  }

  lemma {:induction false} RunConserves(s: State, steps: seq<Step>, maxSize: nat, f: WalkedFile)
    requires Inv(s) && Valid(s, steps, maxSize)
    ensures Inv(Run(s, steps, maxSize))
    ensures Account(Run(s, steps, maxSize), maxSize, f) == Account(s, maxSize, f)
    decreases |steps|
  {
    if steps == [] {
    } else {
      StepKeepsInv(s, steps[0], maxSize);
      StepConserves(s, steps[0], maxSize, f);
      RunConserves(Do(s, steps[0], maxSize), steps[1..], maxSize, f);
    }
  }

  lemma {:induction false} NothingHeld(threads: seq<Thread>, f: WalkedFile)
    requires forall i :: 0 <= i < |threads| ==> threads[i].local == [] && threads[i].batch == []
    ensures AllHeld(threads, f) == 0
  {
    if threads == [] {
    } else {
      NothingHeld(threads[1..], f);
    }
  }

  // ----- Theorems

  lemma DeliversEach(entries: seq<DirEntry>, workers: nat, steps: seq<Step>, maxSize: nat, f: WalkedFile)
    requires Valid(Initial(entries, workers), steps, maxSize)
    requires Complete(Run(Initial(entries, workers), steps, maxSize))
    ensures Occurrences(Run(Initial(entries, workers), steps, maxSize).received, f) ==
      Occurrences(AcceptedFiles(entries, maxSize), f)
  {
    var s := Initial(entries, workers);
    NothingHeld(s.threads, f);
    RunConserves(s, steps, maxSize, f);
    var end := Run(s, steps, maxSize);
    forall i | 0 <= i < |end.threads| ensures end.threads[i].local == [] && end.threads[i].batch == [] {
      assert ThreadOk(end.threads[i]);
    }
    NothingHeld(end.threads, f);
  }

  /** For any number of threads and any interleaving, a complete walk has delivered every
      accepted file exactly once. */
  lemma DeliversExactlyOnce(entries: seq<DirEntry>, workers: nat, steps: seq<Step>, maxSize: nat)
    requires Valid(Initial(entries, workers), steps, maxSize)
    requires Complete(Run(Initial(entries, workers), steps, maxSize))
    ensures multiset(Run(Initial(entries, workers), steps, maxSize).received) ==
      multiset(AcceptedFiles(entries, maxSize))
  {
    var received, accepted := Run(Initial(entries, workers), steps, maxSize).received, AcceptedFiles(entries, maxSize);
    forall f ensures multiset(received)[f] == multiset(accepted)[f] {
      DeliversEach(entries, workers, steps, maxSize, f);
      OccurrencesIsMultiplicity(received, f);
      OccurrencesIsMultiplicity(accepted, f);
    }
  }

  predicate RelPathLe(a: WalkedFile, b: WalkedFile) {
    StringLe(a.relPath, b.relPath)
  }

  /** The batch interface: collect, then sort by relative path. */
  function WalkResult(s: State): seq<WalkedFile> {
    Sort(s.received, RelPathLe)
  }

  /** Accepted files with the same relative path are the same file. */
  ghost predicate PathsTell(files: seq<WalkedFile>) {
    forall f, g :: f in files && g in files && f.relPath == g.relPath ==> f == g
  }

  lemma RelPathOrder()
    ensures TotalPreorder(RelPathLe)
  {
    StringOrder();
  }

  /** `files` is what some complete run hands to the sort. */
  ghost predicate Delivered(entries: seq<DirEntry>, maxSize: nat, files: seq<WalkedFile>) {
    exists workers: nat, steps: seq<Step> ::
      && Valid(Initial(entries, workers), steps, maxSize) && Complete(Run(Initial(entries, workers), steps, maxSize))
      && Run(Initial(entries, workers), steps, maxSize).received == files
  }

  lemma DeliveredAccepted(entries: seq<DirEntry>, maxSize: nat, files: seq<WalkedFile>)
    requires Delivered(entries, maxSize, files)
    ensures multiset(files) == multiset(AcceptedFiles(entries, maxSize))
  {
    var workers: nat, steps: seq<Step> :|
      && Valid(Initial(entries, workers), steps, maxSize) && Complete(Run(Initial(entries, workers), steps, maxSize))
      && Run(Initial(entries, workers), steps, maxSize).received == files;
    DeliversExactlyOnce(entries, workers, steps, maxSize);
  }

  /** When relative paths tell accepted files apart, the sorted walk is the same sequence under
      every schedule, with any number of threads, and with any sorting algorithm. */
  lemma ScheduleDoesNotMatter(entries: seq<DirEntry>, maxSize: nat, p: seq<WalkedFile>, q: seq<WalkedFile>,
                              x: seq<WalkedFile>, y: seq<WalkedFile>)
    requires PathsTell(AcceptedFiles(entries, maxSize))
    requires Delivered(entries, maxSize, p) && Delivered(entries, maxSize, q)
    requires multiset(x) == multiset(p) && SortedBy(x, RelPathLe) && multiset(y) == multiset(q) &&
      SortedBy(y, RelPathLe)
    ensures x == y
  {
    DeliveredAccepted(entries, maxSize, p);
    DeliveredAccepted(entries, maxSize, q);
    SameElements(x, AcceptedFiles(entries, maxSize));
    forall f, h | f in x && h in x && RelPathLe(f, h) && RelPathLe(h, f) ensures f == h {
      StringLeAntisymmetric(f.relPath, h.relPath);
    }
    SortedIsUnique(x, y, RelPathLe);
  }

  // ----- A single worker that starts with a given entry

  /** Everything the only thread has taken, in order. */
  function Line(s: State): seq<WalkedFile>
    requires |s.threads| == 1
  {
    s.received + s.threads[0].batch + s.threads[0].local
  }

  lemma LineGrows(s: State, step: Step, maxSize: nat)
    requires Inv(s) && CanStep(s, step) && |s.threads| == 1
    ensures |Do(s, step, maxSize).threads| == 1 && Line(s) <= Line(Do(s, step, maxSize))
  {
    assert ThreadOk(s.threads[0]);
  }

  lemma {:induction false} LineKept(s: State, steps: seq<Step>, maxSize: nat)
    requires Inv(s) && Valid(s, steps, maxSize) && |s.threads| == 1
    ensures Inv(Run(s, steps, maxSize)) && |Run(s, steps, maxSize).threads| == 1
    ensures Line(s) <= Line(Run(s, steps, maxSize))
    decreases |steps|
  {
    if steps == [] {
    } else {
      StepKeepsInv(s, steps[0], maxSize);
      LineGrows(s, steps[0], maxSize);
      LineKept(Do(s, steps[0], maxSize), steps[1..], maxSize);
    }
  }

  /** Some complete run of one worker delivers the file of entry `k` first. */
  lemma StartingWith(entries: seq<DirEntry>, maxSize: nat, k: nat) returns (files: seq<WalkedFile>)
    requires k < |entries| && Accepts(entries[k], maxSize)
    ensures Delivered(entries, maxSize, files) && files != [] && files[0] == entries[k].file
  {
    var s := Initial(entries, 1);
    assert ThreadOk(s.threads[0]);
    var next := Do(s, Take(0, k), maxSize);
    StepKeepsInv(s, Take(0, k), maxSize);
    var rest := WalkCompletes(next, maxSize);
    LineKept(next, rest, maxSize);
    var steps := [Take(0, k)] + rest;
    assert steps[1..] == rest && Line(next) == [entries[k].file];
    var end := Run(s, steps, maxSize);
    assert end == Run(next, rest, maxSize) && ThreadOk(end.threads[0]);
    files := end.received;
    assert Line(end) == files;
  }

  // ----- Ties

  /** The first file with this relative path. */
  function FirstWith(files: seq<WalkedFile>, path: string): Option<WalkedFile> {
    if files == [] then None
    else if files[0].relPath == path then Some(files[0])
    else FirstWith(files[1..], path)
  }

  lemma {:induction false} InsertFirst(x: WalkedFile, s: seq<WalkedFile>)
    ensures FirstWith(Insert(x, s, RelPathLe), x.relPath) == Some(x)
  {
    if s == [] || RelPathLe(x, s[0]) {
    } else {
      StringLeTotal(x.relPath, s[0].relPath);
      InsertFirst(x, s[1..]);
      assert Insert(x, s, RelPathLe)[1..] == Insert(x, s[1..], RelPathLe);
    }
  }

  /** The walk's result is the same under every schedule. */
  ghost predicate Repeatable(entries: seq<DirEntry>, maxSize: nat) {
    forall p, q :: Delivered(entries, maxSize, p) && Delivered(entries, maxSize, q) ==>
      Sort(p, RelPathLe) == Sort(q, RelPathLe)
  }

  lemma {:induction false} AcceptedAt(entries: seq<DirEntry>, maxSize: nat, f: WalkedFile) returns (k: nat)
    requires f in AcceptedFiles(entries, maxSize)
    ensures k < |entries| && Accepts(entries[k], maxSize) && entries[k].file == f
    decreases |entries|
  {
    if f in Kept(entries[0], maxSize) {
      k := 0;
    } else {
      var i := AcceptedAt(entries[1..], maxSize, f);
      k := i + 1;
    }
  }

  /** Two accepted files with one relative path come out in the order they were taken. */
  lemma TieBreaks(entries: seq<DirEntry>, maxSize: nat, f: WalkedFile, g: WalkedFile)
    requires f in AcceptedFiles(entries, maxSize) && g in AcceptedFiles(entries, maxSize)
    requires f != g && f.relPath == g.relPath
    ensures !Repeatable(entries, maxSize)
  {
    var i := AcceptedAt(entries, maxSize, f);
    var j := AcceptedAt(entries, maxSize, g);
    var p := StartingWith(entries, maxSize, i);
    var q := StartingWith(entries, maxSize, j);
    InsertFirst(f, Sort(p[1..], RelPathLe));
    InsertFirst(g, Sort(q[1..], RelPathLe));
    assert FirstWith(Sort(p, RelPathLe), f.relPath) != FirstWith(Sort(q, RelPathLe), f.relPath);
  }

  /** Exactly: the walk is repeatable if and only if relative paths tell accepted files apart. */
  lemma RepeatableIff(entries: seq<DirEntry>, maxSize: nat)
    ensures Repeatable(entries, maxSize) <==> PathsTell(AcceptedFiles(entries, maxSize))
  {
    if PathsTell(AcceptedFiles(entries, maxSize)) {
      RelPathOrder();
      forall p, q | Delivered(entries, maxSize, p) && Delivered(entries, maxSize, q)
        ensures Sort(p, RelPathLe) == Sort(q, RelPathLe)
      {
        SortSorts(p, RelPathLe);
        SortSorts(q, RelPathLe);
        ScheduleDoesNotMatter(entries, maxSize, p, q, Sort(p, RelPathLe), Sort(q, RelPathLe));
      }
    } else {
      var f, g :| f in AcceptedFiles(entries, maxSize) && g in AcceptedFiles(entries, maxSize)
        && f.relPath == g.relPath && f != g;
      TieBreaks(entries, maxSize, f, g);
    }
  }

  /** The store key of a file: backslashes of the path below the root become slashes. */
  function RelPath(below: string): string {
    seq(|below|, i requires 0 <= i < |below| => if below[i] == '\\' then '/' else below[i])
  }

  function Plain(below: string): DirEntry {
    Entry(Some(true), false, false, true, WalkedFile("/r/" + below, RelPath(below), "", 0, 0))
  }

  /** The file "b" in directory "a" and a file named "a\\b" beside it have one relative path, so
      their order depends on the schedule. */
  lemma BackslashExample(maxSize: nat)
    ensures !Repeatable([Plain("a/b"), Plain("a\\b")], maxSize)
  {
    var entries := [Plain("a/b"), Plain("a\\b")];
    var f, g := entries[0].file, entries[1].file;
    assert RelPath("a/b") == "a/b" == RelPath("a\\b");
    assert f.absPath[4] == '/' && g.absPath[4] == '\\';
    assert AcceptedFiles(entries, maxSize) == [f, g] by {
      assert entries[1..] == [entries[1]] && [entries[1]][1..] == [];
      assert Accepts(entries[0], maxSize) && Accepts(entries[1], maxSize);
      assert AcceptedFiles([entries[1]], maxSize) == [g] + AcceptedFiles([], maxSize) == [g];
    }
    assert [f, g][0] in [f, g] && [f, g][1] in [f, g];
    TieBreaks(entries, maxSize, f, g);
  }

  // ----- Every schedule completes

  function PhaseLeft(p: Phase): nat {
    match p case Visiting => 2 case Flushing => 3 case Dropping => 1 case Dropped => 0
  }

  function ThreadLeft(th: Thread): nat {
    3 * |th.local| + 2 * |th.batch| + PhaseLeft(th.phase)
  }

  function ThreadsLeft(threads: seq<Thread>): nat {
    if threads == [] then 0 else ThreadLeft(threads[0]) + ThreadsLeft(threads[1..])
  }

  /** Work left for the whole walk. */
  function Measure(s: State): nat {
    5 * |s.todo| + ThreadsLeft(s.threads)
  }

  lemma {:induction false} LeftUpdate(threads: seq<Thread>, i: nat, th: Thread)
    requires i < |threads|
    ensures ThreadsLeft(threads[i := th]) + ThreadLeft(threads[i]) == ThreadsLeft(threads) + ThreadLeft(th)
  {
    if i > 0 {
      LeftUpdate(threads[1..], i - 1, th);
      assert threads[i := th][1..] == threads[1..][i - 1 := th];
    } else {
      assert threads[i := th][1..] == threads[1..];
    }
  }

  /** Every step uses up work, so no schedule can go on forever. */
  lemma AlwaysProgresses(s: State, step: Step, maxSize: nat)
    requires Inv(s) && CanStep(s, step)
    ensures Measure(Do(s, step, maxSize)) < Measure(s)
  {
    assert ThreadOk(s.threads[step.t]);
    LeftUpdate(s.threads, step.t, Do(s, step, maxSize).threads[step.t]);
  }

  /** While the walk is not complete some thread can take a step. */
  lemma NeverStuck(s: State) returns (step: Step)
    requires Inv(s) && s.threads != [] && !Complete(s)
    ensures CanStep(s, step)
  {
    var i := 0;
    if s.todo == [] {
      i :| 0 <= i < |s.threads| && s.threads[i].phase != Dropped;
    }
    var th := s.threads[i];
    assert ThreadOk(th);
    step := if th.phase == Visiting then (if s.todo == [] then StartDrop(i) else Take(i, 0))
            else if th.batch != [] then Send(i)
            else if th.phase == Flushing then FlushEnd(i)
            else DropEnd(i);
  }

  /** So every partial schedule, with at least one worker, extends to a complete walk. */
  lemma {:induction false} WalkCompletes(s: State, maxSize: nat) returns (steps: seq<Step>)
    requires Inv(s) && s.threads != []
    ensures Valid(s, steps, maxSize) && Complete(Run(s, steps, maxSize)) && |steps| <= Measure(s)
    decreases Measure(s)
  {
    if Complete(s) {
      steps := [];
    } else {
      var step := NeverStuck(s);
      AlwaysProgresses(s, step, maxSize);
      StepKeepsInv(s, step, maxSize);
      var rest := WalkCompletes(Do(s, step, maxSize), maxSize);
      steps := [step] + rest;
      assert steps[1..] == rest;
    }
  }

  // ----- What is accepted

  /** The entry is the readable regular file `f`, not below .git, not binary, not over the limit. */
  predicate IsAcceptable(e: DirEntry, f: WalkedFile, maxSize: nat) {
    e == Entry(Some(true), false, false, true, f) && f.size <= maxSize
  }

  /** The accepted files are exactly those of acceptable entries. */
  lemma {:induction false} AcceptedMeans(entries: seq<DirEntry>, maxSize: nat, f: WalkedFile)
    ensures f in AcceptedFiles(entries, maxSize) <==> exists e :: e in entries && IsAcceptable(e, f, maxSize)
  {
    if entries == [] {
    } else {
      AcceptedMeans(entries[1..], maxSize, f);
      assert entries == [entries[0]] + entries[1..];
      assert f in Kept(entries[0], maxSize) <==> IsAcceptable(entries[0], f, maxSize);
    }
  }

  /** A visitor starts a flush exactly when an accepted file fills its buffer to 32. */
  lemma FlushesAt32(th: Thread, e: DirEntry, maxSize: nat)
    requires th.phase == Visiting
    ensures Visited(th, e, maxSize).phase == Flushing <==> Accepts(e, maxSize) && |th.local| >= 31
  {
  }

  /** The walk's result comes by relative path. */
  lemma ResultInOrder(s: State, i: nat, j: nat)
    requires i < j < |WalkResult(s)|
    ensures StringLe(WalkResult(s)[i].relPath, WalkResult(s)[j].relPath)
  {
    RelPathOrder();
    SortSorts(s.received, RelPathLe);
  }
}
