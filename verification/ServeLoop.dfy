/** The daemon's accept loop, its connection handlers, the idle check, the shutdown signaller
    and the final store close, as steps that interleave in every possible order. */
module ServeLoop {
  import opened Common

  const IDLE_SHUTDOWN_SECS: nat := 1800

  datatype LoopPc =
    | Reaping       // collecting finished handlers
    | Acquiring     // about to poll shutdown, then the semaphore
    | AcquirePolled // shutdown polled as unset, semaphore next
    | Accepting     // permit held, about to poll shutdown, then the listener
    | AcceptPolled  // shutdown polled as unset, listener next
    | Checking      // connection accepted, peer not yet checked
    | Spawning      // counted, about to hand permit, guard and graph to a handler
    | Draining      // accept loop left, joining handlers
    | Aborting      // drain timed out, handlers aborted, joining what is left
    | Signalling    // about to signal shutdown and return
    | Returned

  datatype Outcome = Clean | Panic | Cancelled

  datatype Phase = Running | Exiting(outcome: Outcome) | Done(result: Outcome)

  /** The best-effort write that a handler may leave behind: a task of its own, outside the join
      set, with its own clone of the graph. A connection carries one request, so it starts at
      most one. */
  datatype Deferred = Unstarted | Writing | Ended

  /** A spawned handler and what it still owns. While exiting it drops these in any order. */
  datatype Handler = Handler(phase: Phase, graph: bool, permit: bool, guard: bool, deferred: Deferred)

  datatype Signaller = Waiting | Chosen(choice: nat) | Signalled

  datatype Main = Joining | Cleaning | Closed | Flushed

  datatype IdleCheck =
    | Ticking
    | ReadClock(now: nat)
    | LoadedLast(now: nat, last: nat)
    | LoadedActive(now: nat, last: nat, active: int)
    | Fired

  datatype State = State(
    limit: nat, free: nat, loop: LoopPc,
    handlers: map<nat, Handler>, joinSet: set<nat>, aborted: bool, panicReaped: bool,
    active: int, flag: bool, signaller: Signaller, reason: nat, main: Main,
    idle: IdleCheck, clock: nat, lastWall: nat)

  /** Steps of the accept loop and its drain. */
  datatype LoopStep =
    | Reap(h: nat) | ReapNothing | SeeShutdown | PollShutdown | Repoll | Acquire | Accept | AcceptError | RejectPeer
    | CountIn | Spawn(h: nat) | Join(h: nat) | DrainEmpty | DrainTimeout | AbortTimeout | Return

  /** What a handler, or the task it left behind, does on its own. */
  datatype Action = Exit(outcome: Outcome) | DropGraph | DropGuard | DropPermit | Complete | Defer | EndDeferred

  /** Steps of the signaller, the main task, the clock and the idle check. */
  datatype TaskStep =
    | Choose(reason: nat) | Signal | JoinBoth | Close | Flush
    | Tick(t: nat) | IdleReadClock | IdleLoadLast | IdleLoadActive | IdleDecide

  datatype Step = Loop(l: LoopStep) | Act(h: nat, a: Action) | Task(t: TaskStep)

  // ----- Ownership

  predicate HoldsGraph(x: Handler) { x.graph }
  predicate HoldsPermit(x: Handler) { x.permit }
  predicate HoldsGuard(x: Handler) { x.guard }
  predicate IsRunning(x: Handler) { x.phase == Running }
  predicate NotDone(x: Handler) { !x.phase.Done? }
  predicate IsWriting(x: Handler) { x.deferred == Writing }
  predicate MayDefer(x: Handler) { x.deferred == Unstarted }

  function Where(hs: map<nat, Handler>, p: Handler -> bool): set<nat> {
    set h | h in hs && p(hs[h])
  }

  function LoopPermits(pc: LoopPc): nat {
    One(pc == Accepting || pc == AcceptPolled || pc == Checking || pc == Spawning)
  }

  function LoopGuards(pc: LoopPc): nat {
    One(pc == Spawning)
  }

  /** Strong references to the graph: the caller's, the loop's own and its pending clone, one per
      handler that has not dropped its clone, and one per deferred write still going on. */
  function GraphRefs(s: State): nat {
    1 + One(s.loop != Returned) + LoopGuards(s.loop) + |Where(s.handlers, HoldsGraph)| + |Where(s.handlers, IsWriting)|
  }

  /** Nothing but the caller and the accept loop can touch the graph. */
  predicate Unshared(s: State) {
    Where(s.handlers, HoldsGraph) == {} && Where(s.handlers, IsWriting) == {}
  }

  predicate Exited(pc: LoopPc) {
    pc == Draining || pc == Aborting || pc == LoopPc.Signalling || pc == Returned
  }

  // ----- Steps of the accept loop

  predicate IsDone(s: State, h: nat) {
    h in s.joinSet && h in s.handlers && s.handlers[h].phase.Done?
  }

  predicate CanLoop(s: State, l: LoopStep) {
    match l
    case Reap(h) => s.loop == Reaping && IsDone(s, h)
    case ReapNothing => s.loop == Reaping && forall h :: h in s.joinSet ==> !IsDone(s, h)
    case SeeShutdown => (s.loop == Acquiring || s.loop == Accepting) && s.flag
    case PollShutdown => (s.loop == Acquiring || s.loop == Accepting) && !s.flag
    case Repoll => s.loop == AcquirePolled || s.loop == AcceptPolled
    case Acquire => s.loop == AcquirePolled && s.free > 0
    case Accept => s.loop == AcceptPolled
    case AcceptError => s.loop == AcceptPolled
    case RejectPeer => s.loop == Checking
    case CountIn => s.loop == Checking
    case Spawn(h) => s.loop == Spawning && h !in s.handlers
    case Join(h) => (s.loop == Draining || s.loop == Aborting) && IsDone(s, h)
    case DrainEmpty => (s.loop == Draining || s.loop == Aborting) && s.joinSet == {}
    case DrainTimeout => s.loop == Draining && s.joinSet != {}
    case AbortTimeout => s.loop == Aborting && s.joinSet != {}
    case Return => s.loop == LoopPc.Signalling
  }

  const NEW_HANDLER: Handler := Handler(Running, true, true, true, Unstarted)

  predicate ReapsPanic(s: State, l: LoopStep) {
    l.Reap? && l.h in s.handlers && s.handlers[l.h].phase == Done(Panic)
  }

  /** Where the loop goes next. */
  function NextPc(pc: LoopPc, l: LoopStep, panicked: bool): LoopPc {
    match l
    case Reap(_) => if panicked then Draining else pc
    case ReapNothing => Acquiring
    case SeeShutdown => Draining
    case PollShutdown => if pc == Acquiring then AcquirePolled else AcceptPolled
    case Repoll => if pc == AcquirePolled then Acquiring else Accepting
    case Acquire => Accepting
    case Accept => Checking
    case AcceptError => Reaping
    case RejectPeer => Reaping
    case CountIn => Spawning
    case Spawn(_) => Reaping
    case Join(_) => pc
    case DrainEmpty => LoopPc.Signalling
    case DrainTimeout => Aborting
    case AbortTimeout => LoopPc.Signalling
    case Return => Returned
  }

  /** Permits the step takes from the semaphore (negative) or gives back. */
  function PermitChange(pc: LoopPc, l: LoopStep): int {
    match l
    case Acquire => -1
    case AcceptError => 1
    case RejectPeer => 1
    case SeeShutdown => LoopPermits(pc)
    case _ => 0
  }

  function NextJoinSet(joinSet: set<nat>, l: LoopStep): set<nat> {
    match l
    case Reap(h) => joinSet - {h}
    case Join(h) => joinSet - {h}
    case Spawn(h) => joinSet + {h}
    case _ => joinSet
  }

  function DoLoop(s: State, l: LoopStep): State
    requires CanLoop(s, l)
  {
    s.(loop := NextPc(s.loop, l, ReapsPanic(s, l)),
       free := s.free + PermitChange(s.loop, l),
       handlers := if l.Spawn? then s.handlers[l.h := NEW_HANDLER] else s.handlers,
       joinSet := NextJoinSet(s.joinSet, l),
       active := s.active + One(l.CountIn?),
       aborted := s.aborted || l.DrainTimeout? || l.Return?,
       panicReaped := s.panicReaped || ReapsPanic(s, l),
       flag := s.flag || l.Return?,
       lastWall := if l.Accept? then s.clock else s.lastWall)
  }

  // ----- Steps of a handler

  predicate CanAct(s: State, h: nat, a: Action) {
    && h in s.handlers
    && var x := s.handlers[h];
       match a
       case Exit(outcome) => x.phase == Running && (outcome == Cancelled ==> s.aborted)
       case DropGraph => x.phase.Exiting? && x.graph
       case DropGuard => x.phase.Exiting? && x.guard
       case DropPermit => x.phase.Exiting? && x.permit
       case Complete => x.phase.Exiting? && !x.graph && !x.guard && !x.permit
       case Defer => x.phase == Running && x.deferred == Unstarted
       case EndDeferred => x.deferred == Writing
  }

  function Acted(x: Handler, a: Action): Handler
    requires a.Complete? ==> x.phase.Exiting?
  {
    match a
    case Exit(outcome) => x.(phase := Exiting(outcome))
    case DropGraph => x.(graph := false)
    case DropGuard => x.(guard := false)
    case DropPermit => x.(permit := false)
    case Complete => x.(phase := Done(x.phase.outcome))
    case Defer => x.(deferred := Writing)
    case EndDeferred => x.(deferred := Ended)
  }

  function DoAct(s: State, h: nat, a: Action): State
    requires CanAct(s, h, a)
  {
    s.(handlers := s.handlers[h := Acted(s.handlers[h], a)],
       active := s.active - One(a == DropGuard), free := s.free + One(a == DropPermit))
  }

  // ----- Steps of the other tasks

  predicate CanTask(s: State, t: TaskStep) {
    match t
    case Choose(r) => s.signaller == Waiting && 1 <= r <= 5 && (r == 3 ==> s.idle == Fired) && (r == 4 ==> s.flag)
    case Signal => s.signaller.Chosen?
    case JoinBoth => s.main == Joining && s.loop == Returned && s.signaller == Signalled
    case Close => s.main == Cleaning && GraphRefs(s) == 1
    case Flush => s.main == Cleaning && GraphRefs(s) != 1
    case Tick(_) => true
    case IdleReadClock => s.idle == Ticking
    case IdleLoadLast => s.idle.ReadClock?
    case IdleLoadActive => s.idle.LoadedLast?
    case IdleDecide => s.idle.LoadedActive?
  }

  /** `now - last`, never below zero, has reached the idle limit. */
  predicate Stale(now: nat, last: nat) {
    (if now < last then 0 else now - last) >= IDLE_SHUTDOWN_SECS
  }

  function Decide(check: IdleCheck): IdleCheck
    requires check.LoadedActive?
  {
    if Stale(check.now, check.last) && check.active == 0 then Fired else Ticking
  }

  function NextIdle(s: State, t: TaskStep): IdleCheck
    requires CanTask(s, t)
  {
    match t
    case IdleReadClock => ReadClock(s.clock)
    case IdleLoadLast => LoadedLast(s.idle.now, s.lastWall)
    case IdleLoadActive => LoadedActive(s.idle.now, s.idle.last, s.active)
    case IdleDecide => Decide(s.idle)
    case _ => s.idle
  }

  function NextMain(m: Main, t: TaskStep): Main {
    match t
    case JoinBoth => Cleaning
    case Close => Closed
    case Flush => Flushed
    case _ => m
  }

  function DoTask(s: State, t: TaskStep): State
    requires CanTask(s, t)
  {
    s.(signaller := if t.Choose? then Chosen(t.reason) else if t.Signal? then Signalled else s.signaller,
       reason := if t.Signal? then s.signaller.choice else s.reason,
       flag := s.flag || t.Signal?,
       main := NextMain(s.main, t),
       clock := if t.Tick? then t.t else s.clock,
       idle := NextIdle(s, t))
  }

  // ----- Runs

  predicate CanStep(s: State, step: Step) {
    match step
    case Loop(l) => CanLoop(s, l)
    case Act(h, a) => CanAct(s, h, a)
    case Task(t) => CanTask(s, t)
  }

  function Do(s: State, step: Step): State
    requires CanStep(s, step)
  {
    match step
    case Loop(l) => DoLoop(s, l)
    case Act(h, a) => DoAct(s, h, a)
    case Task(t) => DoTask(s, t)
  }

  function Initial(limit: nat, clock: nat): State {
    State(limit, limit, Reaping, map[], {}, false, false, 0, false, Waiting, 0, Joining, Ticking, clock, clock)
  }

  predicate Valid(s: State, steps: seq<Step>)
    decreases |steps|
  {
    steps == [] || (CanStep(s, steps[0]) && Valid(Do(s, steps[0]), steps[1..]))
  }

  function Run(s: State, steps: seq<Step>): State
    requires Valid(s, steps)
    decreases |steps|
  {
    if steps == [] then s else Run(Do(s, steps[0]), steps[1..])
  }

  // ----- The invariant

  /** No permit is lost or duplicated, and the counter counts exactly the armed guards. */
  ghost predicate Conserved(s: State) {
    && s.free + LoopPermits(s.loop) + |Where(s.handlers, HoldsPermit)| == s.limit
    && s.active == LoopGuards(s.loop) + |Where(s.handlers, HoldsGuard)|
  }

  /** A running handler owns everything it was given; a finished one owns nothing. */
  predicate Sound(x: Handler) {
    && (x.phase == Running ==> x.graph && x.permit && x.guard)
    && (x.phase.Done? ==> !x.graph && !x.permit && !x.guard)
  }

  /** Handlers own what their phase says, and whatever left the join set has finished. */
  ghost predicate HandlersOk(s: State) {
    && s.joinSet <= s.handlers.Keys
    && (forall h :: h in s.handlers ==> Sound(s.handlers[h]))
    && (forall h :: h in s.handlers && h !in s.joinSet ==> s.handlers[h].phase.Done?)
  }

  /** The handler finished with a panic and was taken out of the join set. */
  predicate PanicTaken(s: State, h: nat) {
    h in s.handlers && h !in s.joinSet && s.handlers[h].phase == Done(Panic)
  }

  predicate WasCancelled(x: Handler) {
    x.phase == Exiting(Cancelled) || x.phase == Done(Cancelled)
  }

  /** A loop that has taken a panicked handler out has left; it is said to have reaped one only if
      there is one; and handlers are cancelled only after the loop has left. */
  ghost predicate PanicsOk(s: State) {
    && (s.panicReaped ==> Exited(s.loop) && exists h :: PanicTaken(s, h))
    && (!Exited(s.loop) ==> forall h :: !PanicTaken(s, h))
    && (s.aborted ==> Exited(s.loop))
    && (forall h :: h in s.handlers && WasCancelled(s.handlers[h]) ==> s.aborted)
  }

  /** Who set the flag, why the loop left, and what the main task knows when it cleans up. */
  ghost predicate ShutdownOk(s: State) {
    && (s.loop == Returned ==> s.flag)
    && (s.flag && s.signaller != Signalled ==> s.loop == Returned)
    && (Exited(s.loop) && s.signaller != Signalled ==> s.panicReaped)
    && (s.signaller == Chosen(4) || s.reason == 4 ==> s.panicReaped)
    && (s.signaller == Chosen(3) || s.reason == 3 ==> s.idle == Fired)
    && (s.main != Joining ==> s.loop == Returned && s.signaller == Signalled)
    && (s.main == Closed ==> Unshared(s))
  }

  ghost predicate Inv(s: State) {
    Conserved(s) && HandlersOk(s) && ShutdownOk(s) && PanicsOk(s)
  }

  lemma WhereAt(hs: map<nat, Handler>, h: nat, p: Handler -> bool)
    ensures |Where(hs, p)| == |Where(hs, p) - {h}| + One(h in hs && p(hs[h]))
  {
    if h in hs && p(hs[h]) {
      assert Where(hs, p) == (Where(hs, p) - {h}) + {h};
    } else {
      assert Where(hs, p) == Where(hs, p) - {h};
    }
  }

  /** Changing one handler changes each count by that handler alone. */
  lemma WhereUpdate(hs: map<nat, Handler>, h: nat, x: Handler, p: Handler -> bool)
    ensures |Where(hs[h := x], p)| == |Where(hs, p)| + One(p(x)) - One(h in hs && p(hs[h]))
  {
    WhereAt(hs, h, p);
    WhereAt(hs[h := x], h, p);
    assert Where(hs[h := x], p) - {h} == Where(hs, p) - {h};
  }

  lemma LoopConserves(s: State, l: LoopStep)
    requires Conserved(s) && CanLoop(s, l)
    ensures Conserved(DoLoop(s, l))
  {
    if l.Spawn? {
      WhereUpdate(s.handlers, l.h, NEW_HANDLER, HoldsPermit);
      WhereUpdate(s.handlers, l.h, NEW_HANDLER, HoldsGuard);
    }
  }

  lemma LoopKeepsShutdown(s: State, l: LoopStep)
    requires ShutdownOk(s) && HandlersOk(s) && CanLoop(s, l)
    ensures ShutdownOk(DoLoop(s, l)) && HandlersOk(DoLoop(s, l))
  {
  }

  lemma LoopKeepsPanics(s: State, l: LoopStep)
    requires HandlersOk(s) && PanicsOk(s) && CanLoop(s, l)
    ensures PanicsOk(DoLoop(s, l))
  {
    var t := DoLoop(s, l);
    if ReapsPanic(s, l) {
      assert PanicTaken(t, l.h);
    } else if s.panicReaped {
      var h :| PanicTaken(s, h);
      assert PanicTaken(t, h);
    }
    if !Exited(t.loop) {
      forall h ensures !PanicTaken(t, h) {
        assert !PanicTaken(s, h);
      }
    }
  }

  lemma LoopKeepsInv(s: State, l: LoopStep)
    requires Inv(s) && CanLoop(s, l)
    ensures Inv(DoLoop(s, l))
  {
    LoopConserves(s, l);
    LoopKeepsPanics(s, l);
    LoopKeepsShutdown(s, l);
  }

  lemma ActKeepsPanics(s: State, h: nat, a: Action)
    requires HandlersOk(s) && PanicsOk(s) && CanAct(s, h, a)
    ensures PanicsOk(DoAct(s, h, a))
  {
    var t := DoAct(s, h, a);
    forall k ensures PanicTaken(t, k) <==> PanicTaken(s, k) {
    }
  }

  lemma ActConserves(s: State, h: nat, a: Action)
    requires Inv(s) && CanAct(s, h, a)
    ensures Conserved(DoAct(s, h, a))
  {
    var x := Acted(s.handlers[h], a);
    WhereUpdate(s.handlers, h, x, HoldsPermit);
    WhereUpdate(s.handlers, h, x, HoldsGuard);
  }

  lemma ActKeepsInv(s: State, h: nat, a: Action)
    requires Inv(s) && CanAct(s, h, a)
    ensures Inv(DoAct(s, h, a))
  {
    ActConserves(s, h, a);
    ActKeepsPanics(s, h, a);
    var x := Acted(s.handlers[h], a);
    assert Sound(s.handlers[h]) && Sound(x);
    if s.main == Closed {
      assert h !in Where(s.handlers, HoldsGraph) && h !in Where(s.handlers, IsWriting);
      assert Where(s.handlers[h := x], HoldsGraph) == {};
      assert Where(s.handlers[h := x], IsWriting) == {};
    }
  }

  lemma TaskKeepsInv(s: State, t: TaskStep)
    requires Inv(s) && CanTask(s, t)
    ensures Inv(DoTask(s, t))
  {
    assert forall h :: PanicTaken(DoTask(s, t), h) <==> PanicTaken(s, h);
  }

  lemma StepKeepsInv(s: State, step: Step)
    requires Inv(s) && CanStep(s, step)
    ensures Inv(Do(s, step))
  {
    match step
    case Loop(l) => LoopKeepsInv(s, l);
    case Act(h, a) => ActKeepsInv(s, h, a);
    case Task(t) => TaskKeepsInv(s, t);
  }

  lemma InitialInv(limit: nat, clock: nat)
    ensures Inv(Initial(limit, clock))
  {
    assert Where(map[], HoldsPermit) == {};
    assert Where(map[], HoldsGuard) == {};
  }

  lemma {:induction false} RunKeepsInv(s: State, steps: seq<Step>)
    requires Inv(s) && Valid(s, steps)
    ensures Inv(Run(s, steps)) && Run(s, steps).limit == s.limit
    decreases |steps|
  {
    if steps == [] {
    } else {
      StepKeepsInv(s, steps[0]);
      RunKeepsInv(Do(s, steps[0]), steps[1..]);
    }
  }

  /** A state that some interleaving reaches from the start. */
  ghost predicate Reachable(limit: nat, s: State) {
    exists clock: nat, steps: seq<Step> :: Valid(Initial(limit, clock), steps) && Run(Initial(limit, clock), steps) == s
  }

  lemma ReachableInv(limit: nat, s: State)
    requires Reachable(limit, s)
    ensures Inv(s) && s.limit == limit
  {
    var clock: nat, steps: seq<Step> :| Valid(Initial(limit, clock), steps) && Run(Initial(limit, clock), steps) == s;
    InitialInv(limit, clock);
    RunKeepsInv(Initial(limit, clock), steps);
  }

  // ----- Permits, counter and idle check

  /** In every reachable state: free permits, the loop's permit and the handlers' permits add up
      to the limit; the active counter equals the armed guards; so at most `limit` handlers
      run at once and the counter never goes below zero. */
  lemma PermitsAndCounter(limit: nat, s: State)
    requires Reachable(limit, s)
    ensures s.free + LoopPermits(s.loop) + |Where(s.handlers, HoldsPermit)| == limit
    ensures s.active == LoopGuards(s.loop) + |Where(s.handlers, HoldsGuard)| >= 0
    ensures |Where(s.handlers, IsRunning)| <= limit && |Where(s.handlers, IsRunning)| <= s.active
  {
    ReachableInv(limit, s);
    SubsetSize(Where(s.handlers, IsRunning), Where(s.handlers, HoldsPermit));
    SubsetSize(Where(s.handlers, IsRunning), Where(s.handlers, HoldsGuard));
  }

  /** No connection is being handled or handed over, and the accept time that the idle check
      has loaded is stale. */
  ghost predicate Quiet(s: State) {
    && s.loop != Spawning && Where(s.handlers, HoldsGuard) == {}
    && s.idle.LoadedLast? && Stale(s.idle.now, s.idle.last)
  }

  /** Step `k` of the run loads the active counter in a quiet state. */
  ghost predicate QuietLoadAt(s: State, steps: seq<Step>, k: nat)
    requires Valid(s, steps)
  {
    k < |steps| && steps[k] == Task(IdleLoadActive) && Valid(s, steps[..k]) && Quiet(Run(s, steps[..k]))
  }

  /** The idle check is about to fire. */
  predicate Armed(check: IdleCheck) {
    check.LoadedActive? && check.active == 0 && Stale(check.now, check.last)
  }

  lemma ArmedByQuietLoad(s: State, step: Step)
    requires Inv(s) && CanStep(s, step) && s.idle != Fired && !Armed(s.idle)
    ensures Do(s, step).idle != Fired
    ensures Armed(Do(s, step).idle) ==> step == Task(IdleLoadActive) && Quiet(s)
  {
    if Armed(Do(s, step).idle) {
      assert |Where(s.handlers, HoldsGuard)| == 0;
    }
  }

  lemma LoadAtFirst(s: State, steps: seq<Step>)
    requires Valid(s, steps) && steps != [] && steps[0] == Task(IdleLoadActive) && Quiet(s)
    ensures QuietLoadAt(s, steps, 0)
  {
    assert steps[..0] == [];
  }

  lemma LoadAtLater(s: State, steps: seq<Step>, j: nat)
    requires Valid(s, steps) && steps != [] && QuietLoadAt(Do(s, steps[0]), steps[1..], j)
    ensures QuietLoadAt(s, steps, j + 1)
  {
    var front := steps[..j + 1];
    assert front[1..] == steps[1..][..j] && front[0] == steps[0];
  }

  lemma {:induction false} IdleWitness(s: State, steps: seq<Step>) returns (k: nat)
    requires Inv(s) && Valid(s, steps) && Run(s, steps).idle == Fired
    requires s.idle != Fired && !Armed(s.idle)
    ensures QuietLoadAt(s, steps, k)
    decreases |steps|
  {
    ArmedByQuietLoad(s, steps[0]);
    if Armed(Do(s, steps[0]).idle) {
      k := 0;
      LoadAtFirst(s, steps);
    } else {
      StepKeepsInv(s, steps[0]);
      var j := IdleWitness(Do(s, steps[0]), steps[1..]);
      k := j + 1;
      LoadAtLater(s, steps, j);
    }
  }

  /** Idle shutdown fires only if some load of the counter saw no handler and no hand-over, with
      a stale accept time: a connection that is live at every load keeps the daemon up. */
  lemma IdleNeedsQuiet(limit: nat, clock: nat, steps: seq<Step>)
    requires Valid(Initial(limit, clock), steps)
    requires Run(Initial(limit, clock), steps).idle == Fired
    ensures exists k: nat :: QuietLoadAt(Initial(limit, clock), steps, k)
  {
    InitialInv(limit, clock);
    var k := IdleWitness(Initial(limit, clock), steps);
  }

  // ----- After the exit

  lemma ExitIsFinal(s: State, step: Step)
    requires Exited(s.loop) && CanStep(s, step)
    ensures Exited(Do(s, step).loop) && Do(s, step).handlers.Keys == s.handlers.Keys
  {
  }

  /** Once the accept loop has left, for whatever reason, it never comes back and no handler is
      ever spawned again. */
  lemma {:induction false} NoSpawnAfterExit(s: State, steps: seq<Step>)
    requires Exited(s.loop) && Valid(s, steps)
    ensures Exited(Run(s, steps).loop) && Run(s, steps).handlers.Keys == s.handlers.Keys
    decreases |steps|
  {
    if steps == [] {
    } else {
      ExitIsFinal(s, steps[0]);
      NoSpawnAfterExit(Do(s, steps[0]), steps[1..]);
    }
  }

  /** In every reachable state: a panicked handler that was reaped has ended the accept loop, and
      with it the daemon's service: no run from there spawns another handler. */
  lemma PanicEndsService(limit: nat, s: State, steps: seq<Step>, h: nat)
    requires Reachable(limit, s) && Valid(s, steps)
    requires h in s.handlers && h !in s.joinSet && s.handlers[h].phase == Done(Panic)
    ensures Exited(s.loop) && Exited(Run(s, steps).loop) && Run(s, steps).handlers.Keys == s.handlers.Keys
  {
    ReachableInv(limit, s);
    assert PanicTaken(s, h);
    NoSpawnAfterExit(s, steps);
  }

  /** The daemon is on its way down: shutdown was signalled, or the accept loop has left. */
  predicate Stopping(s: State) {
    s.flag || Exited(s.loop)
  }

  lemma StoppingIsFinal(s: State, step: Step)
    requires Stopping(s) && CanStep(s, step)
    ensures Stopping(Do(s, step))
  {
  }

  predicate IsSpawn(step: Step) {
    step.Loop? && step.l.Spawn?
  }

  /** Hand-overs the loop may still complete once shutdown is signalled. */
  function SpawnsLeft(s: State): nat {
    One(s.loop == AcceptPolled || s.loop == Checking || s.loop == Spawning)
  }

  function SpawnSteps(steps: seq<Step>): nat {
    if steps == [] then 0 else One(IsSpawn(steps[0])) + SpawnSteps(steps[1..])
  }

  lemma SpawnUsesUp(s: State, step: Step)
    requires s.flag && CanStep(s, step)
    ensures Do(s, step).flag && SpawnsLeft(Do(s, step)) + One(IsSpawn(step)) <= SpawnsLeft(s)
  {
  }

  /** Shutdown pre-empts: after the signal at most one more handler is ever spawned, namely for
      a connection the loop was already taking. */
  lemma {:induction false} AtMostOneMoreSpawn(s: State, steps: seq<Step>)
    requires s.flag && Valid(s, steps)
    ensures SpawnSteps(steps) <= SpawnsLeft(s) <= 1
    decreases |steps|
  {
    if steps == [] {
    } else {
      SpawnUsesUp(s, steps[0]);
      AtMostOneMoreSpawn(Do(s, steps[0]), steps[1..]);
    }
  }

  // ----- Work left

  /** Steps the loop still has to take, counting the work of a handler it may still spawn. */
  function LoopLeft(pc: LoopPc): nat {
    match pc
    case AcceptPolled => 17 case Checking => 16 case Spawning => 15
    case Reaping => 6 case AcquirePolled => 5 case Acquiring => 4 case Accepting => 4
    case Draining => 3 case Aborting => 2 case Signalling => 1 case Returned => 0
  }

  function SignallerLeft(g: Signaller): nat {
    match g case Waiting => 2 case Chosen(_) => 1 case Signalled => 0
  }

  function MainLeft(m: Main): nat {
    match m case Joining => 2 case Cleaning => 1 case _ => 0
  }

  function ControlLeft(s: State): nat {
    LoopLeft(s.loop) + SignallerLeft(s.signaller) + MainLeft(s.main) + |s.joinSet|
  }

  function PhasesLeft(hs: map<nat, Handler>): nat {
    |Where(hs, NotDone)| + |Where(hs, IsRunning)|
  }

  function OwnedLeft(hs: map<nat, Handler>): nat {
    |Where(hs, HoldsGraph)| + |Where(hs, HoldsPermit)| + |Where(hs, HoldsGuard)|
  }

  function DeferredLeft(hs: map<nat, Handler>): nat {
    2 * |Where(hs, MayDefer)| + |Where(hs, IsWriting)|
  }

  /** Work left once the daemon is stopping. */
  function Measure(s: State): nat {
    ControlLeft(s) + PhasesLeft(s.handlers) + OwnedLeft(s.handlers) + DeferredLeft(s.handlers)
  }

  lemma PhasesUpdate(hs: map<nat, Handler>, h: nat, x: Handler)
    ensures PhasesLeft(hs[h := x]) ==
      PhasesLeft(hs) + One(NotDone(x)) + One(IsRunning(x))
      - One(h in hs && NotDone(hs[h])) - One(h in hs && IsRunning(hs[h]))
  {
    WhereUpdate(hs, h, x, NotDone);
    WhereUpdate(hs, h, x, IsRunning);
  }

  lemma OwnedUpdate(hs: map<nat, Handler>, h: nat, x: Handler)
    ensures OwnedLeft(hs[h := x]) == OwnedLeft(hs) + One(x.graph) + One(x.permit) + One(x.guard)
      - One(h in hs && hs[h].graph) - One(h in hs && hs[h].permit) - One(h in hs && hs[h].guard)
  {
    WhereUpdate(hs, h, x, HoldsGraph);
    WhereUpdate(hs, h, x, HoldsPermit);
    WhereUpdate(hs, h, x, HoldsGuard);
  }

  lemma DeferredUpdate(hs: map<nat, Handler>, h: nat, x: Handler)
    ensures DeferredLeft(hs[h := x]) == DeferredLeft(hs) + 2 * One(MayDefer(x)) + One(IsWriting(x))
      - 2 * One(h in hs && MayDefer(hs[h])) - One(h in hs && IsWriting(hs[h]))
  {
    WhereUpdate(hs, h, x, MayDefer);
    WhereUpdate(hs, h, x, IsWriting);
  }

  /** Clock and idle-check steps, which do no shutdown work. */
  predicate Background(step: Step) {
    step.Task? && !(step.t.Choose? || step.t.Signal? || step.t.JoinBoth? || step.t.Close? || step.t.Flush?)
  }

  lemma ActWorks(s: State, h: nat, a: Action)
    requires CanAct(s, h, a)
    ensures Measure(DoAct(s, h, a)) < Measure(s)
  {
    PhasesUpdate(s.handlers, h, Acted(s.handlers[h], a));
    OwnedUpdate(s.handlers, h, Acted(s.handlers[h], a));
    DeferredUpdate(s.handlers, h, Acted(s.handlers[h], a));
  }

  lemma SpawnWorks(s: State, h: nat)
    requires Inv(s) && CanLoop(s, Spawn(h))
    ensures Measure(DoLoop(s, Spawn(h))) < Measure(s)
  {
    PhasesUpdate(s.handlers, h, NEW_HANDLER);
    OwnedUpdate(s.handlers, h, NEW_HANDLER);
    DeferredUpdate(s.handlers, h, NEW_HANDLER);
    assert h !in s.joinSet;
  }

  lemma PcWorks(s: State, l: LoopStep)
    requires Stopping(s) && CanLoop(s, l) && !l.Spawn?
    ensures LoopLeft(NextPc(s.loop, l, ReapsPanic(s, l))) + One(!l.Reap? && !l.Join?) <= LoopLeft(s.loop)
  {
  }

  lemma JoinWorks(joinSet: set<nat>, l: LoopStep)
    requires !l.Spawn? && (l.Reap? || l.Join? ==> l.h in joinSet)
    ensures |NextJoinSet(joinSet, l)| + One(l.Reap? || l.Join?) == |joinSet|
  {
    if l.Join? || l.Reap? {
      assert joinSet == (joinSet - {l.h}) + {l.h};
    }
  }

  lemma LoopWorks(s: State, l: LoopStep)
    requires Stopping(s) && CanLoop(s, l) && !l.Spawn?
    ensures DoLoop(s, l).handlers == s.handlers && ControlLeft(DoLoop(s, l)) < ControlLeft(s)
  {
    PcWorks(s, l);
    JoinWorks(s.joinSet, l);
  }

  /** Every step of a stopping daemon uses up work, except the clock and the idle check. */
  lemma StoppingDecreases(s: State, step: Step)
    requires Inv(s) && Stopping(s) && CanStep(s, step)
    ensures Measure(Do(s, step)) + One(!Background(step)) <= Measure(s)
  {
    match step
    case Loop(l) =>
      if l.Spawn? {
        SpawnWorks(s, l.h);
      } else {
        LoopWorks(s, l);
      }
    case Act(h, a) => ActWorks(s, h, a);
    case Task(t) =>
  }

  function WorkSteps(steps: seq<Step>): nat {
    if steps == [] then 0 else One(!Background(steps[0])) + WorkSteps(steps[1..])
  }

  /** So from the moment shutdown is signalled no interleaving can keep the daemon busy for more
      than `Measure` steps. */
  lemma {:induction false} ShutdownIsBounded(s: State, steps: seq<Step>)
    requires Inv(s) && Stopping(s) && Valid(s, steps)
    ensures WorkSteps(steps) + Measure(Run(s, steps)) <= Measure(s)
    decreases |steps|
  {
    if steps == [] {
    } else {
      StoppingDecreases(s, steps[0]);
      StoppingIsFinal(s, steps[0]);
      StepKeepsInv(s, steps[0]);
      ShutdownIsBounded(Do(s, steps[0]), steps[1..]);
    }
  }

  // ----- The daemon finishes by itself

  /** The next step of the daemon's own tasks; it never waits for a handler, a connection or an
      OS signal. `h` is an unused handler number. */
  ghost function OwnStep(s: State, h: nat): Step {
    match s.loop
    case Reaping =>
      if exists k :: k in s.joinSet && IsDone(s, k) then Loop(Reap(var k :| k in s.joinSet && IsDone(s, k); k))
      else Loop(ReapNothing)
    case Acquiring => Loop(SeeShutdown)
    case Accepting => Loop(SeeShutdown)
    case AcquirePolled => Loop(Repoll)
    case AcceptPolled => Loop(Repoll)
    case Checking => Loop(RejectPeer)
    case Spawning => Loop(Spawn(h))
    case Draining => Loop(if s.joinSet == {} then DrainEmpty else DrainTimeout)
    case Aborting => Loop(if s.joinSet == {} then DrainEmpty else AbortTimeout)
    case Signalling => Loop(Return)
    case Returned =>
      Task(if s.signaller == Waiting then Choose(4)
           else if s.signaller.Chosen? then Signal
           else if s.main == Joining then JoinBoth
           else if GraphRefs(s) == 1 then Close
           else Flush)
  }

  predicate Finished(s: State) {
    s.main == Closed || s.main == Flushed
  }

  lemma FreshId(hs: map<nat, Handler>) returns (h: nat)
    ensures h !in hs
  {
    h := 0;
    var seen := {};
    while h in hs
      invariant seen <= hs.Keys && forall i: nat :: i in seen <==> i < h
      decreases |hs.Keys - seen|
    {
      SubsetSize(hs.Keys - (seen + {h}), (hs.Keys - seen) - {h});
      seen := seen + {h};
      h := h + 1;
    }
  }

  /** A stopping daemon can always go on by itself: the flag is set before the signaller could
      hang, so it wakes even if no OS signal ever arrives. */
  lemma NeverStuck(s: State, h: nat)
    requires Inv(s) && Stopping(s) && !Finished(s) && h !in s.handlers
    ensures CanStep(s, OwnStep(s, h)) && !Background(OwnStep(s, h))
  {
  }

  lemma {:induction false} CompletesFrom(s: State) returns (steps: seq<Step>)
    requires Inv(s) && Stopping(s)
    ensures Valid(s, steps) && Finished(Run(s, steps)) && |steps| <= Measure(s)
    decreases Measure(s)
  {
    if Finished(s) {
      steps := [];
    } else {
      var h := FreshId(s.handlers);
      var step := OwnStep(s, h);
      NeverStuck(s, h);
      StoppingDecreases(s, step);
      StoppingIsFinal(s, step);
      StepKeepsInv(s, step);
      var rest := CompletesFrom(Do(s, step));
      steps := [step] + rest;
      assert steps[1..] == rest;
    }
  }

  /** From every reachable state of a stopping daemon, its own steps alone end in a closed or
      flushed store. */
  lemma ShutdownCompletes(limit: nat, s: State)
    requires Reachable(limit, s) && Stopping(s)
    ensures exists steps: seq<Step> :: Valid(s, steps) && Finished(Run(s, steps)) && |steps| <= Measure(s)
  {
    ReachableInv(limit, s);
    var steps := CompletesFrom(s);
  }

  // ----- Closing

  /** In every reachable state: the store is closed only when neither a handler nor a deferred
      write can touch the graph any more; at clean-up it is closed exactly when there is none of
      either, and otherwise only flushed. Draining the join set to the end is therefore not
      enough: it leaves the deferred writes. */
  lemma CloseIsExclusive(limit: nat, s: State)
    requires Reachable(limit, s)
    ensures s.main == Closed ==> Unshared(s)
    ensures s.main == Cleaning ==> (CanTask(s, Close) <==> Unshared(s))
    ensures s.main == Cleaning ==> (CanTask(s, Flush) <==> !Unshared(s))
    ensures s.main == Cleaning && s.joinSet == {} ==> (CanTask(s, Close) <==> Where(s.handlers, IsWriting) == {})
  {
    ReachableInv(limit, s);
    if s.joinSet == {} {
      forall h | h in s.handlers ensures !s.handlers[h].graph {
        assert Sound(s.handlers[h]);
      }
      assert Where(s.handlers, HoldsGraph) == {};
    }
    assert Where(s.handlers, HoldsGraph) != {} ==> |Where(s.handlers, HoldsGraph)| != 0;
    assert Where(s.handlers, IsWriting) != {} ==> |Where(s.handlers, IsWriting)| != 0;
  }

  // ----- Two runs

  lemma {:induction false} RunSnoc(s: State, steps: seq<Step>, step: Step)
    requires Valid(s, steps) && CanStep(Run(s, steps), step)
    ensures Valid(s, steps + [step]) && Run(s, steps + [step]) == Do(Run(s, steps), step)
    decreases |steps|
  {
    if steps == [] {
      assert [step][1..] == [];
    } else {
      RunSnoc(Do(s, steps[0]), steps[1..], step);
      assert (steps + [step])[1..] == steps[1..] + [step];
    }
  }

  lemma ReachableStep(limit: nat, s: State, step: Step)
    requires Reachable(limit, s) && CanStep(s, step)
    ensures Reachable(limit, Do(s, step))
  {
    var clock: nat, steps: seq<Step> :| Valid(Initial(limit, clock), steps) && Run(Initial(limit, clock), steps) == s;
    RunSnoc(Initial(limit, clock), steps, step);
  }

  lemma ReachableInitial(limit: nat, clock: nat)
    ensures Reachable(limit, Initial(limit, clock))
  {
    assert Valid(Initial(limit, clock), []) && Run(Initial(limit, clock), []) == Initial(limit, clock);
  }

  lemma AboutToAcquire(limit: nat, s0: State) returns (s: State)
    requires Reachable(limit, s0) && s0.loop == Reaping && s0.joinSet == {} && !s0.flag
    ensures Reachable(limit, s) && s == s0.(loop := AcquirePolled)
  {
    s := s0;
    ReachableStep(limit, s, Loop(ReapNothing));
    s := Do(s, Loop(ReapNothing));
    ReachableStep(limit, s, Loop(PollShutdown));
    s := Do(s, Loop(PollShutdown));
  }

  /** From a loop at its start with a free permit and nothing to reap, a connection is accepted. */
  lemma Listening(limit: nat, s0: State) returns (s: State)
    requires Reachable(limit, s0) && s0.loop == Reaping && s0.joinSet == {} && s0.free >= 1 && !s0.flag
    ensures Reachable(limit, s) && s == s0.(free := s0.free - 1, loop := Accepting)
  {
    s := AboutToAcquire(limit, s0);
    ReachableStep(limit, s, Loop(Acquire));
    s := Do(s, Loop(Acquire));
  }

  lemma Connected(limit: nat, s0: State) returns (s: State)
    requires Reachable(limit, s0) && s0.loop == Reaping && s0.joinSet == {} && s0.free >= 1 && !s0.flag
    ensures Reachable(limit, s) && s == s0.(free := s0.free - 1, loop := Checking, lastWall := s0.clock)
  {
    s := Listening(limit, s0);
    ReachableStep(limit, s, Loop(PollShutdown));
    s := Do(s, Loop(PollShutdown));
    ReachableStep(limit, s, Loop(Accept));
    s := Do(s, Loop(Accept));
  }

  lemma HandingOver(limit: nat, clock: nat) returns (s: State)
    requires limit >= 1
    ensures Reachable(limit, s) && s == Initial(limit, clock).(free := limit - 1, loop := Spawning, active := 1)
  {
    ReachableInitial(limit, clock);
    s := Connected(limit, Initial(limit, clock));
    ReachableStep(limit, s, Loop(CountIn));
    s := Do(s, Loop(CountIn));
  }

  /** One connection is taken and handed to handler 0. */
  lemma OneConnection(limit: nat, clock: nat) returns (s: State)
    requires limit >= 1
    ensures Reachable(limit, s)
    ensures s == Initial(limit, clock).(free := limit - 1, handlers := map[0 := NEW_HANDLER], joinSet := {0},
                                        active := 1)
  {
    s := HandingOver(limit, clock);
    ReachableStep(limit, s, Loop(Spawn(0)));
    s := Do(s, Loop(Spawn(0)));
  }

  /** Its handler starts a deferred write and leaves its body. */
  lemma LeavingHandler(limit: nat, clock: nat) returns (s: State)
    requires limit >= 1
    ensures Reachable(limit, s)
    ensures s == Initial(limit, clock).(free := limit - 1, joinSet := {0}, active := 1,
                                        handlers := map[0 := Handler(Exiting(Clean), true, true, true, Writing)])
  {
    s := OneConnection(limit, clock);
    ReachableStep(limit, s, Act(0, Defer));
    s := Do(s, Act(0, Defer));
    ReachableStep(limit, s, Act(0, Exit(Clean)));
    s := Do(s, Act(0, Exit(Clean)));
  }

  const LEFT_BEHIND: Handler := Handler(Done(Clean), false, false, false, Writing)

  lemma EmptyHandler(limit: nat, clock: nat) returns (s: State)
    requires limit >= 1
    ensures Reachable(limit, s)
    ensures s == Initial(limit, clock).(free := limit - 1, joinSet := {0},
                                        handlers := map[0 := Handler(Exiting(Clean), false, true, false, Writing)])
  {
    s := LeavingHandler(limit, clock);
    ReachableStep(limit, s, Act(0, DropGraph));
    s := Do(s, Act(0, DropGraph));
    ReachableStep(limit, s, Act(0, DropGuard));
    s := Do(s, Act(0, DropGuard));
  }

  /** It drops what it owns and finishes; the deferred write goes on. */
  lemma AnsweredRequest(limit: nat, clock: nat) returns (s: State)
    requires limit >= 1
    ensures Reachable(limit, s)
    ensures s == Initial(limit, clock).(handlers := map[0 := LEFT_BEHIND], joinSet := {0})
  {
    s := EmptyHandler(limit, clock);
    ReachableStep(limit, s, Act(0, DropPermit));
    s := Do(s, Act(0, DropPermit));
    ReachableStep(limit, s, Act(0, Complete));
    s := Do(s, Act(0, Complete));
  }

  /** A termination signal arrives and the loop reaps the handler. */
  lemma SignalledAfterRequest(limit: nat, clock: nat) returns (s: State)
    requires limit >= 1
    ensures Reachable(limit, s)
    ensures s == Initial(limit, clock).(handlers := map[0 := LEFT_BEHIND], signaller := Signalled, reason := 2,
      flag := true)
  {
    s := AnsweredRequest(limit, clock);
    ReachableStep(limit, s, Task(Choose(2)));
    s := Do(s, Task(Choose(2)));
    ReachableStep(limit, s, Task(Signal));
    s := Do(s, Task(Signal));
    ReachableStep(limit, s, Loop(Reap(0)));
    s := Do(s, Loop(Reap(0)));
  }

  /** The loop finds the join set empty and returns, and the main task goes on to clean up. */
  lemma StoppedAfterRequest(limit: nat, clock: nat) returns (s: State)
    requires limit >= 1
    ensures Reachable(limit, s)
    ensures s.main == Cleaning && s.joinSet == {} && s.handlers == map[0 := LEFT_BEHIND] && s.reason == 2
  {
    s := SignalledAfterRequest(limit, clock);
    ReachableStep(limit, s, Loop(ReapNothing));
    s := Do(s, Loop(ReapNothing));
    ReachableStep(limit, s, Loop(SeeShutdown));
    s := Do(s, Loop(SeeShutdown));
    ReachableStep(limit, s, Loop(DrainEmpty));
    s := Do(s, Loop(DrainEmpty));
    ReachableStep(limit, s, Loop(Return));
    s := Do(s, Loop(Return));
    ReachableStep(limit, s, Task(JoinBoth));
    s := Do(s, Task(JoinBoth));
  }

  /** So one answered request and a termination signal are enough to end with a store that is
      only flushed, with every handler joined and a writer still running. */
  lemma FlushedUnderWriter(limit: nat, clock: nat) returns (s: State)
    requires limit >= 1
    ensures Reachable(limit, s) && s.main == Flushed && s.reason == 2
    ensures s.joinSet == {} && Where(s.handlers, HoldsGraph) == {} && Where(s.handlers, IsWriting) == {0}
  {
    s := StoppedAfterRequest(limit, clock);
    CloseIsExclusive(limit, s);
    assert s.handlers[0] == LEFT_BEHIND;
    assert Where(s.handlers, IsWriting) == {0};
    ReachableStep(limit, s, Task(Flush));
    s := Do(s, Task(Flush));
  }

  /** In every reachable state: "serve_loop_exit" is recorded only after a handler panic was
      reaped, a loop that left without one was told to, and the loop's return has set the flag. */
  lemma SelfExitMeansPanic(limit: nat, s: State)
    requires Reachable(limit, s)
    ensures s.reason == 4 ==> s.panicReaped
    ensures Exited(s.loop) && !s.panicReaped ==> s.signaller == Signalled
    ensures s.loop == Returned ==> s.flag
    ensures s.panicReaped ==> Exited(s.loop) && exists h :: PanicTaken(s, h)
  {
    ReachableInv(limit, s);
  }

  /** In every reachable state: "idle_timeout" is recorded only after the idle check has fired, and
      a handler is cancelled only after the loop has left. */
  lemma ReasonsAreTrue(limit: nat, s: State, h: nat)
    requires Reachable(limit, s)
    ensures s.reason == 3 ==> s.idle == Fired
    ensures h in s.handlers && s.handlers[h].phase == Done(Cancelled) ==> Exited(s.loop)
  {
    ReachableInv(limit, s);
  }

  /** The idle check fires exactly when 1800 seconds have passed since the accept time it loaded
      and it loaded a counter of zero. */
  lemma FiresIff(s: State, now: nat, last: nat, active: int)
    requires s.idle == LoadedActive(now, last, active)
    ensures Do(s, Task(IdleDecide)).idle == Fired <==> now >= last + 1800 && active == 0
  {
  }

  // ----- What the idle check misses

  /** Connections that were accepted and are still to be served: with a running handler, being
      handed over, or with a peer not yet checked. */
  function InService(s: State): nat {
    |Where(s.handlers, IsRunning)| + One(s.loop == Spawning) + One(s.loop == Checking)
  }

  /** Of these a quiet load can only have missed the one whose peer is being checked. */
  lemma QuietMisses(limit: nat, s: State)
    requires Reachable(limit, s) && Quiet(s)
    ensures InService(s) == One(s.loop == Checking)
  {
    ReachableInv(limit, s);
    forall h | h in s.handlers ensures s.handlers[h].phase != Running {
      assert Sound(s.handlers[h]) && h !in Where(s.handlers, HoldsGuard);
    }
    assert Where(s.handlers, IsRunning) == {};
  }

  /** After half an hour without a connection the idle check has read the last accept time. */
  lemma HalfChecked(limit: nat, clock: nat) returns (s: State)
    ensures Reachable(limit, s)
    ensures var late := clock + IDLE_SHUTDOWN_SECS;
      s == Initial(limit, clock).(clock := late, idle := LoadedLast(late, clock))
  {
    var late := clock + IDLE_SHUTDOWN_SECS;
    s := Initial(limit, clock);
    ReachableInitial(limit, clock);
    ReachableStep(limit, s, Task(Tick(late)));
    s := Do(s, Task(Tick(late)));
    ReachableStep(limit, s, Task(IdleReadClock));
    s := Do(s, Task(IdleReadClock));
    ReachableStep(limit, s, Task(IdleLoadLast));
    s := Do(s, Task(IdleLoadLast));
  }

  /** It does miss it: a connection accepted between the two loads does not keep the idle check
      from firing while its peer is being checked. */
  lemma FiresOnAccepted(limit: nat, clock: nat) returns (s: State)
    requires limit >= 1
    ensures Reachable(limit, s) && s.idle == Fired && s.loop == Checking && s.lastWall == s.clock
  {
    s := HalfChecked(limit, clock);
    s := Connected(limit, s);
    ReachableStep(limit, s, Task(IdleLoadActive));
    s := Do(s, Task(IdleLoadActive));
    ReachableStep(limit, s, Task(IdleDecide));
    s := Do(s, Task(IdleDecide));
  }
}
