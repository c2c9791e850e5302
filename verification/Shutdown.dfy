/** The one-shot shutdown signal: a flag plus a broadcast notification, with any number of
    waiters and signallers whose steps interleave freely. */
module Shutdown {

  /** Where a `wait` call stands: not started, enabled on the notification, parked after
      reading the flag as unset, or returned. */
  datatype WaitPc = Fresh | Enabled | Parked | Returned

  datatype Waiter = Waiter(pc: WaitPc, notified: bool)

  /** Where a `signal` call stands: not started, flag stored, waiters notified. */
  datatype SignalPc = Idle | Stored | Notified

  datatype State = State(flag: bool, waiters: map<nat, Waiter>, signallers: map<nat, SignalPc>)

  datatype Step = Enable(w: nat) | CheckFlag(w: nat) | Wake(w: nat) | StoreFlag(s: nat) | NotifyWaiters(s: nat)

  predicate CanStep(st: State, step: Step) {
    match step
    case Enable(w) => w in st.waiters && st.waiters[w].pc == Fresh
    case CheckFlag(w) => w in st.waiters && st.waiters[w].pc == Enabled
    case Wake(w) => w in st.waiters && st.waiters[w].pc == Parked && st.waiters[w].notified
    case StoreFlag(s) => s in st.signallers && st.signallers[s] == Idle
    case NotifyWaiters(s) => s in st.signallers && st.signallers[s] == Stored
  }

  /** A broadcast reaches every waiter that has enabled its notification and not returned. */
  function Broadcast(waiters: map<nat, Waiter>): map<nat, Waiter> {
    map w | w in waiters ::
      if waiters[w].pc == Enabled || waiters[w].pc == Parked then waiters[w].(notified := true) else waiters[w]
  }

  function Do(st: State, step: Step): State
    requires CanStep(st, step)
  {
    match step
    case Enable(w) => st.(waiters := st.waiters[w := Waiter(Enabled, false)])
    case CheckFlag(w) =>
      st.(waiters := st.waiters[w := st.waiters[w].(pc := if st.flag then Returned else Parked)])
    case Wake(w) => st.(waiters := st.waiters[w := st.waiters[w].(pc := Returned)])
    case StoreFlag(s) => st.(flag := true, signallers := st.signallers[s := Stored])
    case NotifyWaiters(s) => st.(waiters := Broadcast(st.waiters), signallers := st.signallers[s := Notified])
  }

  predicate Initial(st: State) {
    && !st.flag
    && (forall w :: w in st.waiters ==> st.waiters[w] == Waiter(Fresh, false))
    && (forall s :: s in st.signallers ==> st.signallers[s] == Idle)
  }

  predicate Valid(st: State, steps: seq<Step>)
    decreases |steps|
  {
    steps == [] || (CanStep(st, steps[0]) && Valid(Do(st, steps[0]), steps[1..]))
  }

  function Run(st: State, steps: seq<Step>): State
    requires Valid(st, steps)
    decreases |steps|
  {
    if steps == [] then st else Run(Do(st, steps[0]), steps[1..])
  }

  ghost predicate Signalling(st: State) {
    exists s :: s in st.signallers && st.signallers[s] == Stored
  }

  /** Some signal call has returned. */
  ghost predicate Completed(st: State) {
    exists s :: s in st.signallers && st.signallers[s] == Notified
  }

  /** A parked waiter that has missed the flag still has a notification coming; once a signal
      call has returned, it has it. */
  ghost predicate Inv(st: State) {
    && (forall w :: w in st.waiters && st.waiters[w].pc == Parked && !st.waiters[w].notified ==>
         !st.flag || Signalling(st))
    && (forall w :: w in st.waiters && (st.waiters[w].notified || st.waiters[w].pc == Returned) ==> st.flag)
    && (forall s :: s in st.signallers && st.signallers[s] != Idle ==> st.flag)
    && (st.flag ==> exists s :: s in st.signallers && st.signallers[s] != Idle)
    && (Completed(st) ==> forall w :: w in st.waiters && st.waiters[w].pc == Parked ==> st.waiters[w].notified)
  }

  /** A broadcast reaches exactly the calls that have registered and not returned. */
  lemma BroadcastReaches(st: State, s: nat, w: nat)
    requires CanStep(st, NotifyWaiters(s)) && w in st.waiters && !st.waiters[w].notified
    ensures w in Do(st, NotifyWaiters(s)).waiters
    ensures Do(st, NotifyWaiters(s)).waiters[w].notified <==> st.waiters[w].pc == Enabled || st.waiters[w].pc == Parked
  {
  }

  lemma StepKeepsInv(st: State, step: Step)
    requires Inv(st) && CanStep(st, step)
    ensures Inv(Do(st, step))
  {
    var st' := Do(st, step);
    match step
    case Enable(w) =>
      assert Signalling(st) ==> Signalling(st');
      assert Completed(st') ==> Completed(st);
    case CheckFlag(w) =>
      assert Signalling(st) ==> Signalling(st');
      assert Completed(st') ==> Completed(st);
    case Wake(w) =>
      assert Signalling(st) ==> Signalling(st');
      assert Completed(st') ==> Completed(st);
    case StoreFlag(s) =>
      assert st'.signallers[s] == Stored;
      assert Completed(st') ==> Completed(st);
    case NotifyWaiters(s) =>
      assert st'.signallers[s] == Notified;
  }

  lemma {:induction false} RunKeepsInv(st: State, steps: seq<Step>)
    requires Inv(st) && Valid(st, steps)
    ensures Inv(Run(st, steps))
    decreases |steps|
  {
    if steps == [] {
    } else {
      StepKeepsInv(st, steps[0]);
      RunKeepsInv(Do(st, steps[0]), steps[1..]);
    }
  }

  predicate CanGoOn(st: State, w: nat) {
    CanStep(st, Enable(w)) || CanStep(st, CheckFlag(w)) || CanStep(st, Wake(w))
  }

  /** No wake-up is ever lost: under every interleaving, once some signal call has returned, even
      while others are half done, every wait call has returned or can take its next step; a wait
      call that cannot step still has its signal or its notification to come; and no wait call
      returns before a signal. */
  lemma NoLostWakeup(st: State, steps: seq<Step>, w: nat)
    requires Initial(st) && Valid(st, steps) && w in Run(st, steps).waiters
    ensures var end := Run(st, steps);
      && (end.waiters[w].pc == Returned ==> end.flag)
      && (Completed(end) ==> end.waiters[w].pc == Returned || CanGoOn(end, w))
      && (end.waiters[w].pc == Returned || CanGoOn(end, w) || !end.flag || Signalling(end))
  {
    RunKeepsInv(st, steps);
  }
}
