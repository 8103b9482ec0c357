/** The gate that keeps signals from getting lost: a condition variable waited on with the gate's
    own lock, around which the guest's mutex is dropped and retaken (native/src/compat_runtime.c). */
module ConditionGate {
  import opened Options

  /** What the gate's lock protects. */
  datatype Counts = Counts(waiters: nat, pending: bool)

  /** A waiter arrives: it takes the token, or it is counted. */
  function Arrived(c: Counts): Counts {
    if c.pending then c.(pending := false) else c.(waiters := c.waiters + 1)
  }

  function Left(c: Counts): Counts
    requires c.waiters > 0
  {
    c.(waiters := c.waiters - 1)
  }

  /** A wake with nobody to wake leaves the token. */
  function Signalled(c: Counts): Counts {
    if c.waiters == 0 then c.(pending := true) else c
  }

  /** The gate; each method is what one thread does while it holds the lock. */
  class Gate {
    var waiters: nat
    var pending: bool

    function Contents(): Counts
      reads this
    {
      Counts(waiters, pending)
    }

    constructor ()
      ensures Contents() == Counts(0, false)
    {
      waiters, pending := 0, false;
    }

    method Arrive() returns (token: bool)
      modifies this
      ensures token == old(pending) && Contents() == Arrived(old(Contents()))
      ensures !pending && waiters == old(waiters) + (if token then 0 else 1)
    {
      token := pending;
      if pending {
        pending := false;
        return;
      }
      waiters := waiters + 1;
    }

    method Leave()
      requires waiters > 0
      modifies this
      ensures Contents() == Left(old(Contents()))
      ensures waiters + 1 == old(waiters) && pending == old(pending)
    {
      waiters := waiters - 1;
    }

    /** Whether the host condition is to be signalled. */
    method Wake() returns (signal: bool)
      modifies this
      ensures signal == (old(waiters) > 0) && Contents() == Signalled(old(Contents()))
      ensures waiters == old(waiters) && pending == (old(pending) || !signal)
    {
      signal := waiters > 0;
      if waiters == 0 {
        pending := true;
      }
    }
  }

  // ---------------------------------------------------------------- the threads

  /** A guest mutex may be held several times over by one thread. */
  datatype Mutex = Mutex(owner: Option<nat>, depth: nat)

  /** Where a thread is. Waiters remember their mutex and how often they held it. Those from
      Checking to Unlocked hold the gate's lock, and so do Leaving and Signalling. */
  datatype Thread =
    | Outside
    | Arriving(mutex: nat, depth: nat)
    | Checking(mutex: nat, depth: nat)
    | Counted(mutex: nat, depth: nat)
    | Unlocked(mutex: nat, depth: nat)
    | Sleeping(mutex: nat, depth: nat)
    | Waking(mutex: nat, depth: nat)
    | Leaving(mutex: nat, depth: nat)
    | Relocking(mutex: nat, depth: nat)
    | Calling(all: bool)
    | Signalling(all: bool)

  datatype State = State(gate: Option<nat>, counts: Counts, mutexes: seq<Mutex>, threads: seq<Thread>)

  datatype Event =
    | Lock(t: nat, m: nat)
    | Unlock(t: nat, m: nat)
    | StartWait(t: nat, m: nat)
    | StartWake(t: nat, all: bool)
    | Continue(t: nat, chosen: nat)
    | Timeout(t: nat)

  predicate Free(mutex: Mutex, t: nat) {
    mutex.owner.None? || mutex.owner == Some(t)
  }

  function Locked(mutex: Mutex, t: nat): Mutex {
    if mutex.owner == Some(t) then mutex.(depth := mutex.depth + 1) else Mutex(Some(t), 1)
  }

  function Released(mutex: Mutex): Mutex {
    if mutex.depth <= 1 then Mutex(None, 0) else mutex.(depth := mutex.depth - 1)
  }

  function Goto(s: State, t: nat, thread: Thread): State
    requires t < |s.threads|
  {
    s.(threads := s.threads[t := thread])
  }

  function SetMutex(s: State, m: nat, mutex: Mutex): State
    requires m < |s.mutexes|
  {
    s.(mutexes := s.mutexes[m := mutex])
  }

  predicate Holds(s: State, t: nat, m: nat) {
    m < |s.mutexes| && s.mutexes[m].owner == Some(t)
  }

  function Woken(thread: Thread): Thread {
    if thread.Sleeping? then Waking(thread.mutex, thread.depth) else thread
  }

  function FirstSleeper(threads: seq<Thread>): (t: nat)
    ensures t <= |threads| && (t < |threads| ==> threads[t].Sleeping?)
    ensures forall u :: 0 <= u < t ==> !threads[u].Sleeping?
  {
    if threads == [] || threads[0].Sleeping? then 0 else 1 + FirstSleeper(threads[1..])
  }

  /** A signal wakes some sleeper, a broadcast all of them. */
  function Roused(threads: seq<Thread>, all: bool, chosen: nat): (r: seq<Thread>)
    ensures |r| == |threads|
  {
    if all then seq(|threads|, u requires 0 <= u < |threads| => Woken(threads[u]))
    else
      var u := if chosen < |threads| && threads[chosen].Sleeping? then chosen else FirstSleeper(threads);
      if u == |threads| then threads else threads[u := Woken(threads[u])]
  }

  /** The next step of a thread inside a call; a thread that cannot have its lock stays put. */
  function Proceed(s: State, t: nat, chosen: nat): State
    requires t < |s.threads|
  {
    match s.threads[t]
    case Outside => s
    case Arriving(m, d) => if s.gate.None? then Goto(s, t, Checking(m, d)).(gate := Some(t)) else s
    case Checking(m, d) =>
      if s.counts.pending then Goto(s, t, Outside).(gate := None, counts := Arrived(s.counts))
      else Goto(s, t, Counted(m, d)).(counts := Arrived(s.counts))
    case Counted(m, d) => if m < |s.mutexes| then SetMutex(Goto(s, t, Unlocked(m, d)), m, Released(s.mutexes[m])) else s
    case Unlocked(m, d) => Goto(s, t, Sleeping(m, d)).(gate := None)
    case Sleeping(m, d) => s
    case Waking(m, d) => if s.gate.None? then Goto(s, t, Leaving(m, d)).(gate := Some(t)) else s
    case Leaving(m, d) =>
      if s.counts.waiters > 0 then Goto(s, t, Relocking(m, d)).(gate := None, counts := Left(s.counts)) else s
    case Relocking(m, d) =>
      if m < |s.mutexes| && Free(s.mutexes[m], t) then SetMutex(Goto(s, t, Outside), m, Locked(s.mutexes[m], t)) else s
    case Calling(all) => if s.gate.None? then Goto(s, t, Signalling(all)).(gate := Some(t)) else s
    case Signalling(all) =>
      var s' := Goto(s, t, Outside).(gate := None, counts := Signalled(s.counts));
      if s.counts.waiters == 0 then s' else s'.(threads := Roused(s'.threads, all, chosen))
  }

  /** A wait starts with the mutex held, as POSIX has it. Sleeps may end for no reason, or in time. */
  function Step(s: State, e: Event): State
  {
    if e.t >= |s.threads| then s
    else match e
      case Lock(t, m) =>
        if s.threads[t] == Outside && m < |s.mutexes|
          && Free(s.mutexes[m], t) then SetMutex(s, m, Locked(s.mutexes[m], t)) else s
      case Unlock(t, m) =>
        if s.threads[t] == Outside && Holds(s, t, m) then SetMutex(s, m, Released(s.mutexes[m])) else s
      case StartWait(t, m) =>
        if s.threads[t] == Outside && Holds(s, t, m) then Goto(s, t, Arriving(m, s.mutexes[m].depth)) else s
      case StartWake(t, all) => if s.threads[t] == Outside then Goto(s, t, Calling(all)) else s
      case Continue(t, chosen) => Proceed(s, t, chosen)
      case Timeout(t) => Goto(s, t, Woken(s.threads[t]))
  }

  function Run(s: State, events: seq<Event>): State
    decreases |events|
  {
    if events == [] then s else Run(Step(s, events[0]), events[1..])
  }

  function Initial(threads: nat, mutexes: nat): State {
    State(None, Counts(0, false), seq(mutexes, _ => Mutex(None, 0)), seq(threads, _ => Outside))
  }

  // ---------------------------------------------------------------- what every run keeps

  predicate InGate(thread: Thread) {
    thread.Checking? || thread.Counted? || thread.Unlocked? || thread.Leaving? || thread.Signalling?
  }

  /** Between being counted and leaving. */
  predicate IsWaiter(thread: Thread) {
    thread.Counted? || thread.Unlocked? || thread.Sleeping? || thread.Waking? || thread.Leaving?
  }

  predicate HasUnlocked(thread: Thread) {
    thread.Unlocked? || thread.Sleeping? || thread.Waking? || thread.Leaving? || thread.Relocking?
  }

  function Waiters(threads: seq<Thread>): (n: nat)
  {
    if threads == [] then 0
    else Waiters(threads[..|threads| - 1]) + if IsWaiter(threads[|threads| - 1]) then 1 else 0
  }

  /** The lock is held by the one thread that is in the gate. */
  predicate GateOk(gate: Option<nat>, threads: seq<Thread>)
  {
    forall t :: 0 <= t < |threads| ==> (InGate(threads[t]) <==> gate == Some(t))
  }

  predicate MutexOk(mutex: Mutex) {
    mutex.owner.Some? <==> mutex.depth > 0
  }

  /** A waiter holds its mutex as often as at first until it unlocks it, and once less from then on. */
  predicate ThreadOk(thread: Thread, t: nat, mutexes: seq<Mutex>)
  {
    match thread
    case Outside => true
    case Calling(all) => true
    case Signalling(all) => true
    case _ =>
      && thread.mutex < |mutexes| && thread.depth > 0
      && var mutex := mutexes[thread.mutex];
         if !HasUnlocked(thread) then mutex == Mutex(Some(t), thread.depth)
         else if thread.depth > 1 then mutex == Mutex(Some(t), thread.depth - 1)
         else mutex.owner != Some(t)
  }

  /** A token and a waiter never coexist. */
  ghost predicate Inv(s: State)
  {
    && GateOk(s.gate, s.threads) && (s.gate.Some? ==> s.gate.value < |s.threads|)
    && s.counts.waiters == Waiters(s.threads)
    && (s.counts.pending ==> s.counts.waiters == 0)
    && (forall m :: 0 <= m < |s.mutexes| ==> MutexOk(s.mutexes[m]))
    && (forall t :: 0 <= t < |s.threads| ==> ThreadOk(s.threads[t], t, s.mutexes))
  }

  lemma {:induction false} WaitersChange(threads: seq<Thread>, t: nat, thread: Thread)
    requires t < |threads|
    ensures Waiters(threads[t := thread]) ==
            Waiters(threads) + (if IsWaiter(thread) then 1 else 0) - (if IsWaiter(threads[t]) then 1 else 0)
    decreases |threads|
  {
    hide IsWaiter;
    var n := |threads| - 1;
    if t < n {
      WaitersChange(threads[..n], t, thread);
      assert threads[t := thread][..n] == threads[..n][t := thread];
    } else {
      assert threads[t := thread][..n] == threads[..n];
    }
  }

  lemma {:induction false} WaitersSame(a: seq<Thread>, b: seq<Thread>)
    requires |a| == |b| && forall u :: 0 <= u < |a| ==> (IsWaiter(a[u]) <==> IsWaiter(b[u]))
    ensures Waiters(a) == Waiters(b)
    decreases |a|
  {
    hide IsWaiter;
    if a != [] {
      var n := |a| - 1;
      assert forall u :: 0 <= u < n ==> a[..n][u] == a[u] && b[..n][u] == b[u];
      WaitersSame(a[..n], b[..n]);
    }
  }

  lemma {:induction false} SomeWaiter(threads: seq<Thread>)
    ensures Waiters(threads) > 0 <==> exists t :: 0 <= t < |threads| && IsWaiter(threads[t])
    decreases |threads|
  {
    hide IsWaiter;
    if threads != [] {
      var n := |threads| - 1;
      SomeWaiter(threads[..n]);
      if Waiters(threads[..n]) > 0 {
        var t :| 0 <= t < n && IsWaiter(threads[..n][t]);
        assert IsWaiter(threads[t]);
      }
      if t :| 0 <= t < |threads| && IsWaiter(threads[t]) {
        assert t < n ==> threads[..n][t] == threads[t];
      }
    }
  }

  lemma ThreadsKept(s: State, t: nat, m: nat, mutex: Mutex)
    requires Inv(s) && t < |s.threads| && m < |s.mutexes|
    requires Free(s.mutexes[m], t) && (mutex.owner == Some(t) || mutex.owner.None?)
    ensures forall u :: 0 <= u < |s.threads| && u != t ==> ThreadOk(s.threads[u], u, s.mutexes[m := mutex])
  {
    hide GateOk, Waiters;
    forall u | 0 <= u < |s.threads| && u != t ensures ThreadOk(s.threads[u], u, s.mutexes[m := mutex]) {
      assert ThreadOk(s.threads[u], u, s.mutexes);
    }
  }

  /** A thread outside may lock and unlock; nobody else notices. */
  lemma LockingKeeps(s: State, e: Event)
    requires Inv(s) && (e.Lock? || e.Unlock?)
    ensures Inv(Step(s, e))
  {
    if Step(s, e) != s {
      ThreadsKept(s, e.t, e.m, Step(s, e).mutexes[e.m]);
      hide Waiters, GateOk;
    }
  }

  /** One thread moves, with its mutex, the counts and the gate. */
  lemma ProceedKeeps(s: State, t: nat, chosen: nat)
    requires Inv(s) && t < |s.threads| && !s.threads[t].Signalling?
    ensures Inv(Proceed(s, t, chosen))
  {
    var s' := Proceed(s, t, chosen);
    WaitersChange(s.threads, t, s'.threads[t]);
    assert ThreadOk(s.threads[t], t, s.mutexes);
    if s.threads[t].Counted? || s.threads[t].Relocking? {
      var m := s.threads[t].mutex;
      if Free(s.mutexes[m], t) {
        ThreadsKept(s, t, m, s'.mutexes[m]);
      }
    }
    hide Waiters;
  }

  /** Waking changes sleepers into waking threads and nothing else, and wakes somebody if it can. */
  lemma RousedThreads(threads: seq<Thread>, all: bool, chosen: nat)
    ensures forall u :: 0 <= u < |threads| ==>
            Roused(threads, all, chosen)[u] == threads[u] || Roused(threads, all, chosen)[u] == Woken(threads[u])
    ensures all ==> forall u :: 0 <= u < |threads| ==> Roused(threads, all, chosen)[u] == Woken(threads[u])
    ensures forall u :: 0 <= u < |threads| && threads[u].Sleeping? ==>
              exists v :: 0 <= v < |threads| && threads[v].Sleeping?
                && Roused(threads, all, chosen)[v] == Woken(threads[v])
  {
    var r := Roused(threads, all, chosen);
    if all {
      forall u | 0 <= u < |threads| && threads[u].Sleeping?
        ensures exists v :: 0 <= v < |threads| && threads[v].Sleeping? && r[v] == Woken(threads[v]) {
        assert r[u] == Woken(threads[u]);
      }
    } else {
      var v := if chosen < |threads| && threads[chosen].Sleeping? then chosen else FirstSleeper(threads);
      if v < |threads| {
        assert r[v] == Woken(threads[v]);
      }
    }
  }

  lemma SignallingKeeps(s: State, t: nat, chosen: nat)
    requires Inv(s) && t < |s.threads| && s.threads[t].Signalling?
    ensures Inv(Proceed(s, t, chosen))
  {
    var s1 := Goto(s, t, Outside).(gate := None, counts := Signalled(s.counts));
    WaitersChange(s.threads, t, Outside);
    assert Inv(s1) by {
      hide Waiters;
    }
    RousedThreads(s1.threads, s.threads[t].all, chosen);
    hide Roused, Inv;
    if s.counts.waiters != 0 {
      WakingKeeps(s1, Roused(s1.threads, s.threads[t].all, chosen));
    }
  }

  /** Sleepers may be woken at any time. */
  lemma WakingKeeps(s: State, threads: seq<Thread>)
    requires Inv(s) && |threads| == |s.threads|
    requires forall u :: 0 <= u < |threads| ==> threads[u] == s.threads[u] || threads[u] == Woken(s.threads[u])
    ensures Inv(s.(threads := threads))
  {
    WaitersSame(s.threads, threads);
    hide Waiters;
    forall u | 0 <= u < |threads| ensures ThreadOk(threads[u], u, s.mutexes) {
      assert ThreadOk(s.threads[u], u, s.mutexes);
    }
  }

  lemma StartingKeeps(s: State, e: Event)
    requires Inv(s) && e.t < |s.threads| && (e.StartWait? || e.StartWake?)
    ensures Inv(Step(s, e))
  {
    WaitersChange(s.threads, e.t, Step(s, e).threads[e.t]);
    hide Waiters;
  }

  lemma StepKeeps(s: State, e: Event)
    requires Inv(s)
    ensures Inv(Step(s, e))
  {
    hide Inv, Proceed;
    if e.t < |s.threads| {
      match e
      case Lock(t, m) => LockingKeeps(s, e);
      case Unlock(t, m) => LockingKeeps(s, e);
      case StartWait(t, m) => StartingKeeps(s, e);
      case StartWake(t, all) => StartingKeeps(s, e);
      case Continue(t, chosen) =>
        if s.threads[t].Signalling? { SignallingKeeps(s, t, chosen); } else { ProceedKeeps(s, t, chosen); }
      case Timeout(t) => WakingKeeps(s, s.threads[t := Woken(s.threads[t])]);
    }
  }

  lemma InitialInv(threads: nat, mutexes: nat)
    ensures Inv(Initial(threads, mutexes))
  {
    SomeWaiter(Initial(threads, mutexes).threads);
  }

  lemma {:induction false} RunKeeps(s: State, events: seq<Event>)
    requires Inv(s)
    ensures Inv(Run(s, events))
    decreases |events|
  {
    hide Inv, Step;
    if events != [] {
      StepKeeps(s, events[0]);
      RunKeeps(Step(s, events[0]), events[1..]);
    }
  }

  // ---------------------------------------------------------------- what that means

  function Reached(threads: nat, mutexes: nat, events: seq<Event>): State {
    Run(Initial(threads, mutexes), events)
  }

  lemma ReachedInv(threads: nat, mutexes: nat, events: seq<Event>)
    ensures Inv(Reached(threads, mutexes, events))
  {
    InitialInv(threads, mutexes);
    RunKeeps(Initial(threads, mutexes), events);
  }

  /** In every reachable state the count is the number of threads between being counted and
      leaving, the gate's lock has at most one thread behind it, and no token is left beside a waiter. */
  lemma WaitersCounted(threads: nat, mutexes: nat, events: seq<Event>)
    ensures var s := Reached(threads, mutexes, events);
            && s.counts.waiters == Waiters(s.threads)
            && (s.counts.pending ==> forall t :: 0 <= t < |s.threads| ==> !IsWaiter(s.threads[t]))
            && (forall t, u :: 0 <= t < u < |s.threads| ==> !(InGate(s.threads[t]) && InGate(s.threads[u])))
  {
    ReachedInv(threads, mutexes, events);
    var s := Reached(threads, mutexes, events);
    SomeWaiter(s.threads);
    hide Reached, Waiters, ThreadOk;
  }

  predicate InWait(thread: Thread) {
    !thread.Outside? && !thread.Calling? && !thread.Signalling?
  }

  lemma WaitStep(s: State, t: nat, chosen: nat)
    requires Inv(s) && t < |s.threads| && InWait(s.threads[t])
    ensures var s' := Proceed(s, t, chosen); var m, d := s.threads[t].mutex, s.threads[t].depth;
            && m < |s'.mutexes|
            && (s'.threads[t] == Outside ==> s'.mutexes[m] == Mutex(Some(t), d))
            && (s'.threads[t] != Outside ==>
              InWait(s'.threads[t]) && s'.threads[t].mutex == m && s'.threads[t].depth == d)
  {
    assert ThreadOk(s.threads[t], t, s.mutexes);
    if s.threads[t].Relocking? && s.threads[t].depth == 1 {
      assert MutexOk(s.mutexes[s.threads[t].mutex]);
    }
    hide Waiters;
  }

  /** Wherever a wait has got to, it goes on with the mutex it began with or returns, and it
      returns with that mutex held, as often as on entry. */
  lemma ReturnsHoldingMutex(threads: nat, mutexes: nat, events: seq<Event>, t: nat, chosen: nat)
    requires t < |Reached(threads, mutexes, events).threads| && InWait(Reached(threads, mutexes, events).threads[t])
    ensures var s := Reached(threads, mutexes, events);
            var s', m, d := Proceed(s, t, chosen), s.threads[t].mutex, s.threads[t].depth;
            && m < |s'.mutexes|
            && (s'.threads[t] == Outside ==> s'.mutexes[m] == Mutex(Some(t), d))
            && (s'.threads[t] != Outside ==>
              InWait(s'.threads[t]) && s'.threads[t].mutex == m && s'.threads[t].depth == d)
  {
    ReachedInv(threads, mutexes, events);
    hide Reached, Proceed, Inv;
    WaitStep(Reached(threads, mutexes, events), t, chosen);
  }

  lemma GateStep(s: State, t: nat, chosen: nat)
    requires Inv(s) && t < |s.threads|
    ensures s.gate == Some(t) ==> Proceed(s, t, chosen).threads[t] != s.threads[t]
    ensures forall m ::
              0 <= m < |s.mutexes| && s.mutexes[m].owner != Some(t) ==>
                Proceed(s, t, chosen).mutexes[m].owner == Some(t) ==> s.gate != Some(t)
  {
    assert ThreadOk(s.threads[t], t, s.mutexes);
    if s.threads[t].Leaving? {
      assert IsWaiter(s.threads[t]);
      SomeWaiter(s.threads);
    }
    if s.threads[t].Signalling? {
      RousedThreads(Goto(s, t, Outside).threads, s.threads[t].all, chosen);
    }
    hide Waiters, Roused;
  }

  /** The lock order: whoever holds the gate's lock never has to wait for a mutex, or for anything;
      and whoever gets a mutex does not hold the gate's lock. */
  lemma GateNeverWaits(threads: nat, mutexes: nat, events: seq<Event>, t: nat, chosen: nat)
    requires t < |Reached(threads, mutexes, events).threads|
    ensures var s := Reached(threads, mutexes, events); var s' := Proceed(s, t, chosen);
            && (s.gate == Some(t) ==> s'.threads[t] != s.threads[t])
            && (forall m :: 0 <= m < |s.mutexes| && s.mutexes[m].owner != Some(t) && s'.mutexes[m].owner == Some(t) ==>
              s.gate != Some(t))
  {
    ReachedInv(threads, mutexes, events);
    hide Reached, Inv;
    GateStep(Reached(threads, mutexes, events), t, chosen);
  }

  /** The only things a thread inside a call can have to wait for: being woken, the gate's lock while another
      thread holds it, and, with its wait over, its mutex while another thread holds that. */
  predicate Blocked(s: State, t: nat)
    requires t < |s.threads|
  {
    match s.threads[t]
    case Outside => true
    case Sleeping(_, _) => true
    case Arriving(_, _) => s.gate.Some?
    case Waking(_, _) => s.gate.Some?
    case Calling(_) => s.gate.Some?
    case Relocking(m, _) => m < |s.mutexes| && s.mutexes[m].owner.Some? && s.mutexes[m].owner != Some(t)
    case _ => false
  }

  lemma BlockedStep(s: State, t: nat, chosen: nat)
    requires Inv(s) && t < |s.threads|
    ensures Proceed(s, t, chosen).threads[t] == s.threads[t] <==> Blocked(s, t)
  {
    assert ThreadOk(s.threads[t], t, s.mutexes);
    if s.threads[t].Leaving? {
      assert IsWaiter(s.threads[t]);
      SomeWaiter(s.threads);
    }
    if s.threads[t].Signalling? {
      RousedThreads(Goto(s, t, Outside).threads, s.threads[t].all, chosen);
    }
    hide Waiters, Roused, GateOk;
  }

  /** In every reachable state a thread gets on with its call exactly when nothing of that holds it up. */
  lemma GetsOn(threads: nat, mutexes: nat, events: seq<Event>, t: nat, chosen: nat)
    requires t < |Reached(threads, mutexes, events).threads|
    ensures var s := Reached(threads, mutexes, events);
            Proceed(s, t, chosen).threads[t] == s.threads[t] <==> Blocked(s, t)
  {
    ReachedInv(threads, mutexes, events);
    hide Reached, Inv, Proceed, Blocked;
    BlockedStep(Reached(threads, mutexes, events), t, chosen);
  }

  /** A woken waiter that finds the gate and its mutex free is back from its wait three steps later, its
      mutex as it was; so is one whose sleep ends in time. */
  lemma WokenReturns(threads: nat, mutexes: nat, events: seq<Event>, t: nat)
    requires var s := Reached(threads, mutexes, events);
             t < |s.threads| && s.threads[t].Waking? && s.gate == None &&
             s.threads[t].mutex < |s.mutexes| && s.mutexes[s.threads[t].mutex].owner in {None, Some(t)}
    ensures var s := Reached(threads, mutexes, events); var m, d := s.threads[t].mutex, s.threads[t].depth;
            var s1 := Step(s, Continue(t, 0));
            var s3 := Step(Step(s1, Continue(t, 0)), Continue(t, 0));
            && s3.threads == s.threads[t := Outside] && s3.gate == None && s3.counts.waiters + 1 == s.counts.waiters
            && s3.mutexes == s.mutexes[m := Mutex(Some(t), d)]
  {
    ReachedInv(threads, mutexes, events);
    var s := Reached(threads, mutexes, events);
    hide Reached;
    assert ThreadOk(s.threads[t], t, s.mutexes) && IsWaiter(s.threads[t]) && MutexOk(s.mutexes[s.threads[t].mutex]);
    SomeWaiter(s.threads);
    hide Waiters, GateOk;
  }

  /** Calls begin for threads outside: a wait with a mutex the thread holds, whose depth is remembered, and a
      wake at any time. */
  lemma CallsBegin(s: State, t: nat, m: nat, all: bool)
    requires t < |s.threads| && s.threads[t] == Outside
    ensures m < |s.mutexes| && s.mutexes[m].owner == Some(t) ==>
              Step(s, StartWait(t, m)) == s.(threads := s.threads[t := Arriving(m, s.mutexes[m].depth)])
    ensures Step(s, StartWake(t, all)) == s.(threads := s.threads[t := Calling(all)])
    ensures m < |s.mutexes| && s.mutexes[m] == Mutex(None, 0) ==>
              Step(s, Lock(t, m)) == s.(mutexes := s.mutexes[m := Mutex(Some(t), 1)])
  {
  }

  /** What a wake does: it leaves the token exactly when nobody is counted; otherwise a counted
      thread is awake, and one that slept if any did, or all of them for a broadcast. */
  ghost predicate Wakes(s: State, s': State, all: bool)
  {
    && |s'.threads| == |s.threads|
    && (s'.counts.pending <==> forall u :: 0 <= u < |s.threads| ==> !IsWaiter(s.threads[u]))
    && (!s'.counts.pending ==> exists u :: 0 <= u < |s'.threads| && s'.threads[u].Waking?)
    && ((exists u :: 0 <= u < |s.threads| && s.threads[u].Sleeping?) ==>
          exists v :: 0 <= v < |s.threads| && s.threads[v].Sleeping? && s'.threads[v].Waking?)
    && (all ==> forall u :: 0 <= u < |s.threads| && s.threads[u].Sleeping? ==> s'.threads[u].Waking?)
  }

  lemma SignalStep(s: State, t: nat, chosen: nat)
    requires Inv(s) && t < |s.threads| && s.threads[t].Signalling?
    ensures Wakes(s, Proceed(s, t, chosen), s.threads[t].all)
  {
    var threads := Goto(s, t, Outside).threads;
    SomeWaiter(s.threads);
    RousedThreads(threads, s.threads[t].all, chosen);
    hide Waiters, Roused;
    if s.counts.waiters != 0 {
      var u :| 0 <= u < |s.threads| && IsWaiter(s.threads[u]);
      assert !InGate(s.threads[u]);
      assert threads[u] == s.threads[u];
      assert Proceed(s, t, chosen).threads == Roused(threads, s.threads[t].all, chosen);
    }
    forall u | 0 <= u < |s.threads| && s.threads[u].Sleeping? ensures IsWaiter(s.threads[u])
      && threads[u] == s.threads[u] {
    }
  }

  /** No wake is lost: afterwards there is the token or a waiter that no longer sleeps, and it
      was taken from its sleep if all of them slept. */
  lemma WakeIsNotLost(threads: nat, mutexes: nat, events: seq<Event>, t: nat, chosen: nat)
    requires t < |Reached(threads, mutexes, events).threads| && Reached(threads, mutexes, events).threads[t].Signalling?
    ensures var s := Reached(threads, mutexes, events); Wakes(s, Proceed(s, t, chosen), s.threads[t].all)
  {
    ReachedInv(threads, mutexes, events);
    hide Reached, Proceed, Inv, Wakes;
    SignalStep(Reached(threads, mutexes, events), t, chosen);
  }

  /** A thread comes to wait, finds the token, and returns without having slept, its mutex held
      throughout. */
  predicate TakesToken(s: State, e: Event)
  {
    && e.Continue? && e.t < |s.threads| && s.threads[e.t].Checking? && s.counts == Counts(0, true)
    && Step(s, e).threads[e.t] == Outside && Step(s, e).counts == Counts(0, false) && Step(s, e).mutexes == s.mutexes
  }

  predicate Checks(s: State, e: Event) {
    e.Continue? && e.t < |s.threads| && s.threads[e.t].Checking?
  }

  /** No thread comes to wait during the run. */
  predicate NoneChecks(s: State, events: seq<Event>)
    decreases |events|
  {
    events == [] || (!Checks(s, events[0]) && NoneChecks(Step(s, events[0]), events[1..]))
  }

  lemma TokenStep(s: State, e: Event)
    requires Inv(s) && s.counts.pending
    ensures Checks(s, e) ==> TakesToken(s, e)
    ensures !Checks(s, e) ==> Step(s, e).counts.pending
  {
    SomeWaiter(s.threads);
    hide Waiters, Roused;
  }

  lemma {:induction false} TokenLasts(s: State, events: seq<Event>)
    requires Inv(s) && s.counts.pending && NoneChecks(s, events)
    ensures Inv(Run(s, events)) && Run(s, events).counts.pending
    decreases |events|
  {
    hide Inv, Step, Checks;
    if events != [] {
      TokenStep(s, events[0]);
      StepKeeps(s, events[0]);
      TokenLasts(Step(s, events[0]), events[1..]);
    }
  }

  /** A token stays, whatever else happens, until some thread comes to wait; that thread takes it. */
  lemma TokenMakesNextWaitReturn(threads: nat, mutexes: nat, before: seq<Event>, events: seq<Event>, e: Event)
    requires var s := Reached(threads, mutexes, before);
             s.counts.pending && NoneChecks(s, events) && Checks(Run(s, events), e)
    ensures TakesToken(Run(Reached(threads, mutexes, before), events), e)
  {
    ReachedInv(threads, mutexes, before);
    var s := Reached(threads, mutexes, before);
    hide Reached, Run, Inv, TakesToken, Checks, NoneChecks;
    TokenLasts(s, events);
    TokenStep(Run(s, events), e);
  }
}
