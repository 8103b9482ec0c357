/** The deferred audio graph work: one queue, one worker, and the guest threads that add to it,
    wait for it, or write parameters past it (native/src/audio_bridge.c). */
module DeferredGraphs {
  import opened Options

  datatype Kind =
    | Initialize | AddRenderNotify | Start | Stop | SetParameter | PoolRefill | CallbackRelease
    | Uninitialize | Close | Dispose

  predicate Teardown(kind: Kind) {
    kind == Uninitialize || kind == Close || kind == Dispose
  }

  /** Work on a graph; graph 0 stands for none. */
  datatype Op = Op(graph: nat, kind: Kind)

  /** What has to be over before an operation on `graph` may go on. */
  predicate Matches(op: Op, graph: nat, teardownOnly: bool) {
    op.graph == graph && (teardownOnly ==> Teardown(op.kind))
  }

  /** What the lock protects. */
  datatype Work = Work(queue: seq<Op>, busy: Option<Op>, outstanding: nat)

  predicate HasWork(w: Work, graph: nat, teardownOnly: bool)
  {
    || (w.busy.Some? && Matches(w.busy.value, graph, teardownOnly))
    || exists k :: 0 <= k < |w.queue| && Matches(w.queue[k], graph, teardownOnly)
  }

  /** The operation has not been finished. */
  predicate Unfinished(w: Work, op: Op) {
    w.busy == Some(op) || op in w.queue
  }

  /** Something is left to be done on the graph; something that takes it down is. */
  ghost predicate AnyLeft(w: Work, graph: nat) {
    exists kind :: Unfinished(w, Op(graph, kind))
  }

  ghost predicate TeardownLeft(w: Work, graph: nat)
  {
    Unfinished(w, Op(graph, Uninitialize)) || Unfinished(w, Op(graph, Close)) || Unfinished(w, Op(graph, Dispose))
  }

  /** The walk over the queue answers just that. */
  lemma WorkLeft(w: Work, graph: nat)
    ensures HasWork(w, graph, false) <==> AnyLeft(w, graph)
    ensures HasWork(w, graph, true) <==> TeardownLeft(w, graph)
  {
    forall kind | Unfinished(w, Op(graph, kind)) ensures HasWork(w, graph, false) {
      LeftFound(w, Op(graph, kind));
    }
    if HasWork(w, graph, false) {
      var op := if w.busy.Some? && w.busy.value.graph == graph then w.busy.value
        else var k :| 0 <= k < |w.queue| && Matches(w.queue[k], graph, false); w.queue[k];
      assert Unfinished(w, Op(graph, op.kind));
    }
    LeftFound(w, Op(graph, Uninitialize));
    LeftFound(w, Op(graph, Close));
    LeftFound(w, Op(graph, Dispose));
  }

  lemma LeftFound(w: Work, op: Op)
    ensures Unfinished(w, op) ==> HasWork(w, op.graph, false) && (Teardown(op.kind) ==> HasWork(w, op.graph, true))
  {
    if op in w.queue {
      var k :| 0 <= k < |w.queue| && w.queue[k] == op;
      assert Matches(w.queue[k], op.graph, false);
    }
  }

  function Appended(w: Work, op: Op): Work {
    Work(w.queue + [op], w.busy, w.outstanding + 1)
  }

  function Taken(w: Work): Work
    requires w.queue != []
  {
    Work(w.queue[1..], Some(w.queue[0]), w.outstanding)
  }

  function Finished(w: Work): Work
    requires w.outstanding > 0
  {
    Work(w.queue, None, w.outstanding - 1)
  }

  // ---------------------------------------------------------------- the queue itself

  class Node {
    const op: Op
    var next: Node?

    constructor (op: Op)
      ensures this.op == op && next == null
    {
      this.op, next := op, null;
    }
  }

  /** A singly linked queue and what its worker is busy with. */
  class Queue {
    var head: Node?
    var tail: Node?
    var inProgress: Option<Op>
    var outstanding: nat
    ghost var nodes: seq<Node>

    ghost predicate Linked()
      reads this, nodes
    {
      && (nodes == [] ==> head == null && tail == null)
      && (nodes != [] ==> head == nodes[0] && tail == nodes[|nodes| - 1] && nodes[|nodes| - 1].next == null)
      && (forall i, j :: 0 <= i < j < |nodes| ==> nodes[i] != nodes[j])
      && (forall i :: 0 <= i < |nodes| - 1 ==> nodes[i].next == nodes[i + 1])
    }

    ghost predicate Valid()
      reads this, nodes
    {
      Linked() && outstanding == |nodes| + (if inProgress.Some? then 1 else 0)
    }

    ghost function Ops(): (ops: seq<Op>)
      reads this
      ensures |ops| == |nodes| && forall i :: 0 <= i < |nodes| ==> ops[i] == nodes[i].op
    {
      seq(|nodes|, i requires 0 <= i < |nodes| reads this => nodes[i].op)
    }

    ghost function Contents(): Work
      reads this
    {
      Work(Ops(), inProgress, outstanding)
    }

    constructor ()
      ensures Valid() && Contents() == Work([], None, 0) && nodes == []
    {
      head, tail, inProgress, outstanding, nodes := null, null, None, 0, [];
    }

    method Append(op: Op)
      requires Valid()
      modifies this, nodes
      ensures Valid() && Contents() == Appended(old(Contents()), op)
      ensures |nodes| == |old(nodes)| + 1 && nodes[..|old(nodes)|] == old(nodes) && fresh(nodes[|old(nodes)|])
    {
      var node := new Node(op);
      if tail != null {
        tail.next := node;
      } else {
        head := node;
      }
      tail := node;
      nodes := nodes + [node];
      outstanding := outstanding + 1;
    }

    /** The worker takes the oldest work; nothing to take means it has to wait. */
    method Take() returns (op: Option<Op>)
      requires Valid() && inProgress.None?
      modifies this
      ensures Valid()
      ensures op.None? <==> old(Contents()).queue == []
      ensures op.None? ==> Contents() == old(Contents()) && nodes == old(nodes)
      ensures op.Some? ==>
              op.value == old(Contents()).queue[0] && Contents() == Taken(old(Contents())) && nodes == old(nodes)[1..]
    {
      if head == null {
        return None;
      }
      var first := head;
      head := first.next;
      if head == null {
        tail := null;
      }
      inProgress := Some(first.op);
      nodes := nodes[1..];
      op := Some(first.op);
    }

    method Finish()
      requires Valid() && inProgress.Some?
      modifies this
      ensures Valid() && nodes == old(nodes) && Contents() == Finished(old(Contents()))
    {
      inProgress := None;
      outstanding := outstanding - 1;
    }

    method GraphHasWork(graph: nat, teardownOnly: bool) returns (yes: bool)
      requires Valid() && graph != 0
      ensures yes <==> HasWork(Contents(), graph, teardownOnly)
    {
      if inProgress.Some? && inProgress.value.graph == graph && (!teardownOnly || Teardown(inProgress.value.kind)) {
        return true;
      }
      var node := head;
      ghost var k := 0;
      while node != null
        invariant 0 <= k <= |nodes|
        invariant node == if k < |nodes| then nodes[k] else null
        invariant forall i :: 0 <= i < k ==> !Matches(Ops()[i], graph, teardownOnly)
        decreases |nodes| - k
      {
        assert Ops()[k] == node.op;
        if node.op.graph == graph && (!teardownOnly || Teardown(node.op.kind)) {
          return true;
        }
        node := node.next;
        k := k + 1;
      }
      yes := false;
    }

    /** What a parameter write does once it holds the lock; `memory` says whether work can be made. */
    method DecideWrite(graph: nat, memory: bool) returns (decision: Decision)
      requires Valid() && graph != 0
      modifies this, nodes
      ensures Valid() && decision == Decide(old(Contents()), graph, memory)
      ensures decision == Drop <==> TeardownLeft(old(Contents()), graph)
      ensures decision == Pass <==> !AnyLeft(old(Contents()), graph)
      ensures decision == Join ==>
                && memory && Contents().queue == old(Contents()).queue + [Op(graph, SetParameter)]
                && Contents().busy == old(Contents()).busy && outstanding == old(outstanding) + 1
      ensures decision != Join ==> Contents() == old(Contents()) && (decision == Wait ==> !memory)
    {
      WorkLeft(Contents(), graph);
      var teardown := GraphHasWork(graph, true);
      if teardown {
        return Drop;
      }
      var pending := GraphHasWork(graph, false);
      if !pending {
        return Pass;
      }
      if !memory {
        return Wait;
      }
      Append(Op(graph, SetParameter));
      decision := Join;
    }
  }

  // ---------------------------------------------------------------- the threads

  /** A parameter write is dropped, joins the queue, waits for the queue, or goes ahead. */
  datatype Decision = Drop | Join | Wait | Pass

  function Decide(w: Work, graph: nat, memory: bool): Decision
  {
    if HasWork(w, graph, true) then Drop
    else if !HasWork(w, graph, false) then Pass
    else if memory then Join
    else Wait
  }

  /** What happened, in order. Guest calls remember how much had been enqueued before them. */
  datatype Effect =
    | FromQueue(op: Op)
    | Inline(op: Op, before: nat)
    | Write(graph: nat, before: nat)
    | Dropped(graph: nat)
    | Drained(graph: nat, teardownOnly: bool, before: nat)

  /** Where a guest thread is between two of its atomic steps. */
  datatype Thread =
    | Outside
    | Deciding(graph: nat, before: nat)
    | Checking(graph: nat, teardownOnly: bool, before: nat, write: bool)
    | Draining(graph: nat, teardownOnly: bool, before: nat, write: bool, asleep: bool)
    | Performing(effect: Effect)

  datatype Worker = Idle | Asleep | Busy | Done

  /** `enqueued` and `effects` are the history. */
  datatype State = State(work: Work, worker: Worker, threads: seq<Thread>, enqueued: seq<Op>, effects: seq<Effect>)

  datatype Event =
    | Enqueue(t: nat, op: Op, memory: bool)
    | StartDrain(t: nat, graph: nat, teardownOnly: bool)
    | StartWrite(t: nat, graph: nat)
    | Continue(t: nat, memory: bool)
    | Wake(t: nat)
    | WorkerStep

  function Append(s: State, op: Op): State
  {
    s.(work := Appended(s.work, op), worker := if s.worker == Asleep then Idle else s.worker, enqueued :=
      s.enqueued + [op])
  }

  function Goto(s: State, t: nat, thread: Thread): State
    requires t < |s.threads|
  {
    s.(threads := s.threads[t := thread])
  }

  /** The wait is over: the drain returns, or the write that needed it goes ahead. */
  function Return(s: State, t: nat, graph: nat, teardownOnly: bool, before: nat, write: bool): State
    requires t < |s.threads|
  {
    if write then Goto(s, t, Performing(Write(graph, before)))
    else Goto(s, t, Outside).(effects := s.effects + [Drained(graph, teardownOnly, before)])
  }

  /** The next atomic step of a thread inside a call. */
  function Proceed(s: State, t: nat, memory: bool): State
    requires t < |s.threads|
  {
    match s.threads[t]
    case Outside => s
    case Deciding(graph, before) =>
      (match Decide(s.work, graph, memory)
       case Drop => Goto(s, t, Outside).(effects := s.effects + [Dropped(graph)])
       case Join => Append(Goto(s, t, Outside), Op(graph, SetParameter))
       case Wait => Goto(s, t, Checking(graph, false, before, true))
       case Pass => Goto(s, t, Performing(Write(graph, before))))
    case Checking(graph, teardownOnly, before, write) =>
      if graph == 0 || s.work.outstanding == 0 then Return(s, t, graph, teardownOnly, before, write)
      else Goto(s, t, Draining(graph, teardownOnly, before, write, false))
    case Draining(graph, teardownOnly, before, write, asleep) =>
      if asleep then s
      else if HasWork(s.work, graph, teardownOnly) then Goto(s, t, Draining(graph, teardownOnly, before, write, true))
      else Return(s, t, graph, teardownOnly, before, write)
    case Performing(effect) => Goto(s, t, Outside).(effects := s.effects + [effect])
  }

  function Woken(thread: Thread): Thread {
    if thread.Draining? then thread.(asleep := false) else thread
  }

  function Worked(s: State): State
  {
    match s.worker
    case Asleep => s
    case Idle => if s.work.queue == [] then s.(worker := Asleep) else s.(work := Taken(s.work), worker := Busy)
    case Busy => if s.work.busy.None? then s else s.(worker := Done, effects :=
      s.effects + [FromQueue(s.work.busy.value)])
    case Done =>
      if s.work.outstanding == 0 then s
      else s.(work := Finished(s.work), worker := Idle,
              threads := seq(|s.threads|, i requires 0 <= i < |s.threads| => Woken(s.threads[i])))
  }

  /** Events that cannot happen leave the state alone. Waits may end for no reason. */
  function Step(s: State, e: Event): State
  {
    match e
    case WorkerStep => Worked(s)
    case Wake(t) => if t < |s.threads| then Goto(s, t, Woken(s.threads[t])) else s
    case Continue(t, memory) => if t < |s.threads| then Proceed(s, t, memory) else s
    case StartDrain(t, graph, teardownOnly) =>
      if t < |s.threads| && s.threads[t] == Outside then Goto(s, t, Checking(graph, teardownOnly, |s.enqueued|, false))
        else s
    case StartWrite(t, graph) =>
      if !(t < |s.threads| && s.threads[t] == Outside) then s
      else if graph == 0 || s.work.outstanding == 0 then Goto(s, t, Performing(Write(graph, |s.enqueued|)))
      else Goto(s, t, Deciding(graph, |s.enqueued|))
    case Enqueue(t, op, memory) =>
      if !(t < |s.threads| && s.threads[t] == Outside) then s
      else if memory then Append(s, op)
      else Goto(s, t, Performing(Inline(op, |s.enqueued|)))
  }

  function Run(s: State, events: seq<Event>): State
    decreases |events|
  {
    if events == [] then s else Run(Step(s, events[0]), events[1..])
  }

  function Initial(threads: nat): State {
    State(Work([], None, 0), Idle, seq(threads, _ => Outside), [], [])
  }

  // ---------------------------------------------------------------- what every run keeps

  /** The queued work that has taken effect. */
  function Performed(effects: seq<Effect>): (ops: seq<Op>)
    ensures |ops| <= |effects|
  {
    if effects == [] then []
    else
      var last := effects[|effects| - 1];
      Performed(effects[..|effects| - 1]) + if last.FromQueue? then [last.op] else []
  }

  function Running(w: Work): seq<Op> {
    if w.busy.Some? then [w.busy.value] else []
  }

  /** Everything enqueued has been done, is being done, or is in the queue, in that order. */
  ghost predicate Conserved(s: State)
  {
    && (s.work.busy.Some? <==> s.worker == Busy || s.worker == Done)
    && (s.worker == Asleep ==> s.work.queue == [])
    && s.work.outstanding == |s.work.queue| + |Running(s.work)|
    && s.enqueued == Performed(s.effects) + (if s.worker == Busy then Running(s.work) else []) + s.work.queue
    && (s.worker == Done ==>
      Performed(s.effects) != [] && Performed(s.effects)[|Performed(s.effects)| - 1] == s.work.busy.value)
  }

  /** What was enqueued first and concerns the graph has taken effect. */
  ghost predicate Settled(enqueued: seq<Op>, done: nat, graph: nat, teardownOnly: bool, before: nat)
  {
    before <= |enqueued| && forall i :: 0 <= i < before && Matches(enqueued[i], graph, teardownOnly) ==> i < done
  }

  ghost predicate ThreadOk(s: State, thread: Thread)
  {
    match thread
    case Outside => true
    case Deciding(graph, before) => graph != 0 && before <= |s.enqueued|
    case Checking(graph, teardownOnly, before, write) => before <= |s.enqueued|
      && (write ==> graph != 0 && !teardownOnly)
    case Draining(graph, teardownOnly, before, write, asleep) =>
      graph != 0 && before <= |s.enqueued| && (write ==> !teardownOnly)
        && (asleep ==> HasWork(s.work, graph, teardownOnly))
    case Performing(effect) =>
      match effect
      case Write(graph, before) => graph != 0 ==> Settled(s.enqueued, |Performed(s.effects)|, graph, false, before)
      case Inline(op, before) => before <= |s.enqueued|
      case _ => false
  }

  /** What an effect promises, given the effects before it. */
  ghost predicate EffectOk(enqueued: seq<Op>, earlier: seq<Effect>, effect: Effect)
  {
    match effect
    case FromQueue(op) => |Performed(earlier)| < |enqueued| && op == enqueued[|Performed(earlier)|]
    case Inline(op, before) => before <= |enqueued|
    case Write(graph, before) => graph != 0 ==> Settled(enqueued, |Performed(earlier)|, graph, false, before)
    case Drained(graph, teardownOnly, before) => graph != 0 ==>
      Settled(enqueued, |Performed(earlier)|, graph, teardownOnly, before)
    case Dropped(_) => true
  }

  ghost predicate HistoryOk(s: State)
  {
    forall k :: 0 <= k < |s.effects| ==> EffectOk(s.enqueued, s.effects[..k], s.effects[k])
  }

  ghost predicate ThreadsOk(s: State)
  {
    forall t :: 0 <= t < |s.threads| ==> ThreadOk(s, s.threads[t])
  }

  ghost predicate Inv(s: State)
  {
    Conserved(s) && ThreadsOk(s) && HistoryOk(s)
  }

  // ---------------------------------------------------------------- how steps keep it

  /** Without matching work in the queue or in progress, everything enqueued that matches has taken effect. */
  lemma NoWorkSettles(s: State, graph: nat, teardownOnly: bool, before: nat)
    requires Conserved(s) && before <= |s.enqueued| && !HasWork(s.work, graph, teardownOnly)
    ensures Settled(s.enqueued, |Performed(s.effects)|, graph, teardownOnly, before)
  {
    var done := |Performed(s.effects)|;
    var rest := (if s.worker == Busy then Running(s.work) else []) + s.work.queue;
    assert forall i :: done <= i < |s.enqueued| ==> s.enqueued[i] == rest[i - done];
  }

  /** One more effect, and a history that only grows. */
  lemma AddsEffect(s: State, effect: Effect)
    requires HistoryOk(s) && EffectOk(s.enqueued, s.effects, effect)
    ensures HistoryOk(s.(effects := s.effects + [effect]))
    ensures Performed(s.effects + [effect]) == Performed(s.effects) + if effect.FromQueue? then [effect.op] else []
  {
    var effects := s.effects + [effect];
    assert effects[..|s.effects|] == s.effects;
    forall k | 0 <= k < |effects| ensures EffectOk(s.enqueued, effects[..k], effects[k]) {
      if k < |s.effects| {
        assert effects[..k] == s.effects[..k];
      }
    }
  }

  lemma StillSettled(enqueued: seq<Op>, op: Op, done: nat, graph: nat, teardownOnly: bool, before: nat)
    requires Settled(enqueued, done, graph, teardownOnly, before)
    ensures Settled(enqueued + [op], done, graph, teardownOnly, before)
  {
  }

  lemma EffectStillOk(enqueued: seq<Op>, op: Op, earlier: seq<Effect>, effect: Effect)
    requires EffectOk(enqueued, earlier, effect)
    ensures EffectOk(enqueued + [op], earlier, effect)
  {
    hide Performed;
  }

  lemma GotoKeeps(s: State, t: nat, thread: Thread)
    requires Inv(s) && t < |s.threads| && ThreadOk(s, thread)
    ensures Inv(Goto(s, t, thread))
  {
    hide HasWork, Settled, Performed;
    forall u | 0 <= u < |s.threads| ensures ThreadOk(Goto(s, t, thread), Goto(s, t, thread).threads[u]) {
      assert ThreadOk(s, s.threads[u]);
    }
  }

  lemma EffectKeeps(s: State, effect: Effect)
    requires Inv(s) && EffectOk(s.enqueued, s.effects, effect) && !effect.FromQueue?
    ensures Inv(s.(effects := s.effects + [effect]))
  {
    AddsEffect(s, effect);
    assert Performed(s.effects) + [] == Performed(s.effects);
    hide HasWork, Settled, Performed, EffectOk;
    var s' := s.(effects := s.effects + [effect]);
    forall u | 0 <= u < |s.threads| ensures ThreadOk(s', s'.threads[u]) {
      assert ThreadOk(s, s.threads[u]);
    }
  }

  lemma AppendConserves(s: State, op: Op)
    requires Conserved(s)
    ensures Conserved(Append(s, op))
  {
    hide Performed;
  }

  lemma ThreadAfterAppend(s: State, op: Op, thread: Thread)
    requires ThreadOk(s, thread)
    ensures ThreadOk(Append(s, op), thread)
  {
    hide Performed;
    if thread.Draining? && thread.asleep {
      var q := s.work.queue;
      assert forall k :: 0 <= k < |q| ==> (q + [op])[k] == q[k];
    }
    if thread.Performing? && thread.effect.Write? && thread.effect.graph != 0 {
      StillSettled(s.enqueued, op, |Performed(s.effects)|, thread.effect.graph, false, thread.effect.before);
    }
  }

  lemma AppendKeeps(s: State, op: Op)
    requires Inv(s)
    ensures Inv(Append(s, op))
  {
    AppendConserves(s, op);
    hide Conserved, ThreadOk, EffectOk;
    var s' := Append(s, op);
    forall u | 0 <= u < |s.threads| ensures ThreadOk(s', s'.threads[u]) {
      ThreadAfterAppend(s, op, s.threads[u]);
    }
    forall k | 0 <= k < |s.effects| ensures EffectOk(s'.enqueued, s'.effects[..k], s'.effects[k]) {
      EffectStillOk(s.enqueued, op, s.effects[..k], s.effects[k]);
    }
  }

  lemma ReturnKeeps(s: State, t: nat, graph: nat, teardownOnly: bool, before: nat, write: bool)
    requires Inv(s) && t < |s.threads| && (write ==> !teardownOnly)
    requires graph != 0 ==> Settled(s.enqueued, |Performed(s.effects)|, graph, teardownOnly, before)
    ensures Inv(Return(s, t, graph, teardownOnly, before, write))
  {
    hide Inv, Performed, Settled;
    if write {
      GotoKeeps(s, t, Performing(Write(graph, before)));
    } else {
      GotoKeeps(s, t, Outside);
      EffectKeeps(Goto(s, t, Outside), Drained(graph, teardownOnly, before));
    }
  }

  lemma NothingOutstanding(s: State, graph: nat, teardownOnly: bool)
    requires Conserved(s) && s.work.outstanding == 0
    ensures !HasWork(s.work, graph, teardownOnly)
  {
  }

  lemma DecidingKeeps(s: State, t: nat, memory: bool)
    requires Inv(s) && t < |s.threads| && s.threads[t].Deciding?
    ensures Inv(Proceed(s, t, memory))
  {
    var graph, before := s.threads[t].graph, s.threads[t].before;
    assert ThreadOk(s, s.threads[t]);
    hide HasWork, Performed, Settled, ThreadsOk, HistoryOk;
    match Decide(s.work, graph, memory)
    case Drop =>
      GotoKeeps(s, t, Outside);
      EffectKeeps(Goto(s, t, Outside), Dropped(graph));
    case Join =>
      GotoKeeps(s, t, Outside);
      AppendKeeps(Goto(s, t, Outside), Op(graph, SetParameter));
    case Wait =>
      GotoKeeps(s, t, Checking(graph, false, before, true));
    case Pass =>
      NoWorkSettles(s, graph, false, before);
      GotoKeeps(s, t, Performing(Write(graph, before)));
  }

  lemma ProceedKeeps(s: State, t: nat, memory: bool)
    requires Inv(s) && t < |s.threads|
    ensures Inv(Proceed(s, t, memory))
  {
    assert ThreadOk(s, s.threads[t]);
    hide HasWork, Performed, Settled, ThreadsOk, HistoryOk, Conserved;
    match s.threads[t]
    case Outside =>
    case Deciding(graph, before) =>
      DecidingKeeps(s, t, memory);
    case Checking(graph, teardownOnly, before, write) =>
      if graph == 0 || s.work.outstanding == 0 {
        if graph != 0 {
          NothingOutstanding(s, graph, teardownOnly);
          NoWorkSettles(s, graph, teardownOnly, before);
        }
        ReturnKeeps(s, t, graph, teardownOnly, before, write);
      } else {
        GotoKeeps(s, t, Draining(graph, teardownOnly, before, write, false));
      }
    case Draining(graph, teardownOnly, before, write, asleep) =>
      if !asleep {
        if HasWork(s.work, graph, teardownOnly) {
          GotoKeeps(s, t, Draining(graph, teardownOnly, before, write, true));
        } else {
          NoWorkSettles(s, graph, teardownOnly, before);
          ReturnKeeps(s, t, graph, teardownOnly, before, write);
        }
      }
    case Performing(effect) =>
      GotoKeeps(s, t, Outside);
      EffectKeeps(Goto(s, t, Outside), effect);
  }

  // ---------------------------------------------------------------- the worker's steps

  lemma ThreadAfterTake(s: State, thread: Thread)
    requires Conserved(s) && s.worker == Idle && s.work.queue != [] && ThreadOk(s, thread)
    ensures ThreadOk(s.(work := Taken(s.work), worker := Busy), thread)
  {
    hide Performed, Settled;
    if thread.Draining? && thread.asleep {
      var q := s.work.queue;
      assert forall k :: 0 < k < |q| ==> q[1..][k - 1] == q[k];
    }
  }

  lemma TakeKeeps(s: State)
    requires Inv(s) && s.worker == Idle && s.work.queue != []
    ensures Inv(Worked(s))
  {
    var s' := Worked(s);
    assert [s.work.queue[0]] + s.work.queue[1..] == s.work.queue;
    hide Performed, EffectOk;
    forall u | 0 <= u < |s.threads| ensures ThreadOk(s', s'.threads[u]) {
      ThreadAfterTake(s, s.threads[u]);
    }
  }

  lemma PerformKeeps(s: State)
    requires Inv(s) && s.worker == Busy
    ensures Inv(Worked(s))
  {
    var s', op := Worked(s), s.work.busy.value;
    assert s.enqueued == Performed(s.effects) + ([op] + s.work.queue);
    assert s.enqueued[|Performed(s.effects)|] == op;
    AddsEffect(s, FromQueue(op));
    hide HasWork, EffectOk, Performed;
    assert HistoryOk(s');
    forall u | 0 <= u < |s.threads| ensures ThreadOk(s', s'.threads[u]) {
      assert ThreadOk(s, s.threads[u]);
    }
  }

  lemma FinishKeeps(s: State)
    requires Inv(s) && s.worker == Done
    ensures Inv(Worked(s))
  {
    var s' := Worked(s);
    hide HasWork, EffectOk, Performed, Settled;
    forall u | 0 <= u < |s'.threads| ensures ThreadOk(s', s'.threads[u]) {
      assert ThreadOk(s, s.threads[u]);
    }
  }

  lemma SleepKeeps(s: State)
    requires Inv(s) && s.worker == Idle && s.work.queue == []
    ensures Inv(Worked(s))
  {
    hide HasWork, EffectOk, Performed, Settled;
    forall u | 0 <= u < |s.threads| ensures ThreadOk(Worked(s), s.threads[u]) {
      assert ThreadOk(s, s.threads[u]);
    }
  }

  lemma WorkedKeeps(s: State)
    requires Inv(s)
    ensures Inv(Worked(s))
  {
    hide ThreadsOk, HistoryOk, Performed, HasWork;
    match s.worker
    case Asleep =>
    case Idle => if s.work.queue == [] { SleepKeeps(s); } else { TakeKeeps(s); }
    case Busy => PerformKeeps(s);
    case Done => FinishKeeps(s);
  }

  lemma StepKeeps(s: State, e: Event)
    requires Inv(s)
    ensures Inv(Step(s, e))
  {
    hide Inv, Performed, HasWork, Settled;
    match e
    case WorkerStep => WorkedKeeps(s);
    case Wake(t) =>
      if t < |s.threads| { WakeKeeps(s, t); }
    case Continue(t, memory) =>
      if t < |s.threads| { ProceedKeeps(s, t, memory); }
    case StartDrain(t, graph, teardownOnly) =>
      if t < |s.threads| { GotoKeeps(s, t, Checking(graph, teardownOnly, |s.enqueued|, false)); }
    case StartWrite(t, graph) =>
      if t < |s.threads| && s.threads[t] == Outside { StartWriteKeeps(s, t, graph); }
    case Enqueue(t, op, memory) =>
      if t < |s.threads| {
        AppendKeeps(s, op);
        GotoKeeps(s, t, Performing(Inline(op, |s.enqueued|)));
      }
  }

  lemma WakeKeeps(s: State, t: nat)
    requires Inv(s) && t < |s.threads|
    ensures Inv(Goto(s, t, Woken(s.threads[t])))
  {
    assert ThreadOk(s, s.threads[t]);
    GotoKeeps(s, t, Woken(s.threads[t]));
  }

  lemma StartWriteKeeps(s: State, t: nat, graph: nat)
    requires Inv(s) && t < |s.threads| && s.threads[t] == Outside
    ensures Inv(Step(s, StartWrite(t, graph)))
  {
    if graph != 0 && s.work.outstanding == 0 {
      NothingOutstanding(s, graph, false);
      NoWorkSettles(s, graph, false, |s.enqueued|);
    }
    hide Performed, HasWork, Settled, Conserved, ThreadsOk, HistoryOk;
    if graph == 0 || s.work.outstanding == 0 {
      GotoKeeps(s, t, Performing(Write(graph, |s.enqueued|)));
    } else {
      GotoKeeps(s, t, Deciding(graph, |s.enqueued|));
    }
  }

  lemma InitialInv(threads: nat)
    ensures Inv(Initial(threads))
  {
  }

  lemma {:induction false} RunKeeps(s: State, events: seq<Event>)
    requires Inv(s)
    ensures Inv(Run(s, events))
    decreases |events|
  {
    hide Inv, Step;
    if events != [] {
      StepKeeps(s, events[0]);
      RunKeeps(Step(s, events[0]), events[1..]);
    }
  }

  // ---------------------------------------------------------------- what that means

  function Reached(threads: nat, events: seq<Event>): State {
    Run(Initial(threads), events)
  }

  lemma ReachedInv(threads: nat, events: seq<Event>)
    ensures Inv(Reached(threads, events))
  {
    InitialInv(threads);
    RunKeeps(Initial(threads), events);
  }

  /** In every interleaving queued work takes effect in the order it was enqueued, each piece
      once, and the counter is what is left of it: the queue and the piece in progress. */
  lemma InOrder(threads: nat, events: seq<Event>)
    ensures var s := Reached(threads, events); var done := |Performed(s.effects)|;
            && done <= |s.enqueued| && Performed(s.effects) == s.enqueued[..done]
            && s.work.outstanding == |s.work.queue| + |Running(s.work)|
            && |s.enqueued| - done <= s.work.outstanding <= |s.enqueued| - done + 1
            && |s.work.queue| <= |s.enqueued| && s.work.queue == s.enqueued[|s.enqueued| - |s.work.queue|..]
  {
    ReachedInv(threads, events);
    hide ThreadsOk, HistoryOk, Run, Performed;
  }

  lemma {:induction false} PerformedPrefix(effects: seq<Effect>, k: nat)
    requires k <= |effects|
    ensures |Performed(effects[..k])| <= |Performed(effects)|
    ensures Performed(effects[..k]) == Performed(effects)[..|Performed(effects[..k])|]
    decreases |effects|
  {
    if k == |effects| {
      assert effects[..k] == effects;
    } else {
      var front := effects[..|effects| - 1];
      assert front[..k] == effects[..k];
      PerformedPrefix(front, k);
    }
  }

  /** Nothing on its graph that was enqueued before a parameter write began takes effect after
      it, and a drain returns only once everything that matched at its start has taken effect. */
  lemma NothingOvertaken(threads: nat, events: seq<Event>, k: nat, i: nat)
    requires k < |Reached(threads, events).effects|
    requires var e := Reached(threads, events).effects[k];
             && (e.Write? || e.Drained?) && e.graph != 0 && i < e.before
             && i < |Reached(threads, events).enqueued|
             && Matches(Reached(threads, events).enqueued[i], e.graph, e.Drained? && e.teardownOnly)
    ensures var s := Reached(threads, events); var earlier := Performed(s.effects[..k]);
            i < |earlier| && earlier[i] == s.enqueued[i]
  {
    ReachedInv(threads, events);
    InOrder(threads, events);
    var s := Reached(threads, events);
    assert EffectOk(s.enqueued, s.effects[..k], s.effects[k]);
    PerformedPrefix(s.effects, k);
    hide Run, Performed;
  }

  // ---------------------------------------------------------------- whole calls

  /** Thread `t` is inside a drain, or a write, that began when `before` operations had been enqueued. */
  predicate InCall(thread: Thread, graph: nat, teardownOnly: bool, before: nat, write: bool)
  {
    || thread == Checking(graph, teardownOnly, before, write)
    || thread == Draining(graph, teardownOnly, before, write, true)
    || thread == Draining(graph, teardownOnly, before, write, false)
    || (write && (thread == Deciding(graph, before) || thread == Performing(Write(graph, before))))
  }

  lemma CallStep(s: State, e: Event, t: nat, graph: nat, teardownOnly: bool, before: nat, write: bool)
    requires t < |s.threads| && InCall(s.threads[t], graph, teardownOnly, before, write) && (write ==> !teardownOnly)
    ensures var s' := Step(s, e);
            && t < |s'.threads|
            && (!InCall(s'.threads[t], graph, teardownOnly, before, write) ==>
              && s'.threads[t] == Outside
              && (!write ==> s'.effects == s.effects + [Drained(graph, teardownOnly, before)]))
  {
    hide HasWork;
  }

  lemma {:induction false} StillInCall(threads: nat, events: seq<Event>, m: nat, n: nat, t: nat, graph: nat,
      teardownOnly: bool, before: nat, write: bool)
    requires m <= n <= |events| && (write ==> !teardownOnly)
    requires forall k :: m < k <= n ==> InsideAt(threads, events, k, t)
    requires var s := Reached(threads, events[..m]);
             t < |s.threads| && InCall(s.threads[t], graph, teardownOnly, before, write)
    ensures var s := Reached(threads, events[..n]);
            t < |s.threads| && InCall(s.threads[t], graph, teardownOnly, before, write)
    decreases n
  {
    if m < n {
      StillInCall(threads, events, m, n - 1, t, graph, teardownOnly, before, write);
      ReachedNext(threads, events, n - 1);
      assert InsideAt(threads, events, n, t);
      hide Reached, InCall, Step;
      CallStep(Reached(threads, events[..n - 1]), events[n - 1], t, graph, teardownOnly, before, write);
    }
  }

  /** After `k` events thread `t` is inside a call. */
  predicate InsideAt(threads: nat, events: seq<Event>, k: nat, t: nat)
    requires k <= |events|
  {
    var s := Reached(threads, events[..k]);
    t < |s.threads| && s.threads[t] != Outside
  }

  /** From call to return: when a drain that began with event `m` returns with event `n`, all matching
      work that had been enqueued before the call has taken effect. */
  lemma DrainCompletes(threads: nat, events: seq<Event>, m: nat, n: nat, t: nat, graph: nat, teardownOnly: bool)
    requires m < n < |events| && events[m] == StartDrain(t, graph, teardownOnly) && graph != 0
    requires t < threads && !InsideAt(threads, events, m, t) && !InsideAt(threads, events, n + 1, t)
    requires forall k :: m < k <= n ==> InsideAt(threads, events, k, t)
    ensures var s := Reached(threads, events[..n + 1]);
            Settled(s.enqueued, |Performed(s.effects)|, graph, teardownOnly, |Reached(threads, events[..m]).enqueued|)
  {
    hide Reached, Performed, Settled, HasWork, Step, Conserved, ThreadsOk, InCall, HistoryOk;
    var before := |Reached(threads, events[..m]).enqueued|;
    CallBegins(threads, events, m, t);
    ReachedNext(threads, events, n);
    StillInCall(threads, events, m + 1, n, t, graph, teardownOnly, before, false);
    var s, s' := Reached(threads, events[..n]), Reached(threads, events[..n + 1]);
    ReachedInv(threads, events[..n + 1]);
    CallStep(s, events[n], t, graph, teardownOnly, before, false);
    NotInside(s'.threads[t], graph, teardownOnly, before);
    LastEffect(s', s.effects, Drained(graph, teardownOnly, before));
  }

  lemma NotInside(thread: Thread, graph: nat, teardownOnly: bool, before: nat)
    ensures thread == Outside ==> !InCall(thread, graph, teardownOnly, before, false)
  {
  }

  /** The call is told how much has been enqueued so far. */
  lemma CallBegins(threads: nat, events: seq<Event>, m: nat, t: nat)
    requires m < |events| && t < threads && !InsideAt(threads, events, m, t)
    requires events[m].StartDrain? || events[m].StartWrite?
    requires events[m].t == t
    ensures var s, s' := Reached(threads, events[..m]), Reached(threads, events[..m + 1]); var e := events[m];
            && t < |s'.threads|
            && InCall(s'.threads[t], e.graph, e.StartDrain? && e.teardownOnly, |s.enqueued|, e.StartWrite?)
  {
    ThreadsStay(threads, events[..m]);
    ReachedNext(threads, events, m);
    hide Reached, HasWork;
  }

  lemma LastEffect(s: State, earlier: seq<Effect>, effect: Effect)
    requires HistoryOk(s) && s.effects == earlier + [effect] && !effect.FromQueue?
    ensures EffectOk(s.enqueued, earlier, effect) && Performed(s.effects) == Performed(earlier)
  {
    hide EffectOk;
    var k := |earlier|;
    assert s.effects[..k] == earlier && s.effects[k] == effect;
    assert EffectOk(s.enqueued, s.effects[..k], s.effects[k]);
  }

  lemma {:induction false} ThreadsStay(threads: nat, events: seq<Event>)
    ensures |Reached(threads, events).threads| == threads
    decreases |events|
  {
    hide Step;
    if events != [] {
      var n := |events| - 1;
      ThreadsStay(threads, events[..n]);
      RunSnoc(Initial(threads), events);
      SameThreads(Reached(threads, events[..n]), events[n]);
    }
  }

  lemma SameThreads(s: State, e: Event)
    ensures |Step(s, e).threads| == |s.threads|
  {
    hide HasWork;
  }

  /** From call to effect: when a parameter write that began with event `m` is made with event `n`,
      everything on its graph that had been enqueued before the call has taken effect. */
  lemma WriteCompletes(threads: nat, events: seq<Event>, m: nat, n: nat, t: nat, graph: nat)
    requires m < n < |events| && events[m] == StartWrite(t, graph) && graph != 0
    requires t < threads && !InsideAt(threads, events, m, t)
    requires forall k :: m < k <= n ==> InsideAt(threads, events, k, t)
    requires events[n].Continue? && events[n].t == t
    requires var s := Reached(threads, events[..n]); t < |s.threads| && s.threads[t].Performing?
    ensures var s, s' := Reached(threads, events[..n]), Reached(threads, events[..n + 1]);
            var before := |Reached(threads, events[..m]).enqueued|;
            && s'.effects == s.effects + [Write(graph, before)]
            && Settled(s'.enqueued, |Performed(s'.effects)|, graph, false, before)
  {
    var before := |Reached(threads, events[..m]).enqueued|;
    CallBegins(threads, events, m, t);
    ReachedNext(threads, events, n);
    StillInCall(threads, events, m + 1, n, t, graph, false, before, true);
    var s, s' := Reached(threads, events[..n]), Reached(threads, events[..n + 1]);
    ReachedInv(threads, events[..n + 1]);
    hide Reached, Performed, Settled, HasWork, Conserved, ThreadsOk;
    LastEffect(s', s.effects, Write(graph, before));
  }

  // ---------------------------------------------------------------- nobody waits for ever

  function WorkerSteps(n: nat): (events: seq<Event>)
    ensures |events| == n
  {
    if n == 0 then [] else [WorkerStep] + WorkerSteps(n - 1)
  }

  function StepsLeft(s: State): nat
  {
    3 * |s.work.queue| + match s.worker case Busy => 2 case Done => 1 case _ => 0
  }

  lemma WorkerProgress(s: State)
    requires Inv(s) && s.work.outstanding != 0
    ensures StepsLeft(Worked(s)) + 1 == StepsLeft(s)
  {
    hide ThreadsOk, HistoryOk, Performed;
  }

  /** The worker alone gets everything done. */
  lemma {:induction false} WorkerEmpties(s: State) returns (n: nat)
    requires Inv(s)
    ensures Run(s, WorkerSteps(n)).work.outstanding == 0 && Inv(Run(s, WorkerSteps(n)))
    ensures |Run(s, WorkerSteps(n)).threads| == |s.threads|
    decreases StepsLeft(s)
  {
    if s.work.outstanding == 0 {
      n := 0;
    } else {
      WorkerProgress(s);
      WorkedKeeps(s);
      hide Inv, StepsLeft;
      var rest := WorkerEmpties(Worked(s));
      n := rest + 1;
      assert WorkerSteps(n)[0] == WorkerStep && WorkerSteps(n)[1..] == WorkerSteps(rest);
    }
  }

  /** With nothing outstanding the next step of a call is its last, or the effect is: drains return,
      and writes are made. */
  ghost predicate GoesOn(s: State, t: nat)
    requires t < |s.threads|
  {
    var s' := Proceed(s, t, true);
    match s.threads[t]
    case Outside => true
    case Deciding(graph, before) => s'.threads[t] == Performing(Write(graph, before)) && s'.effects == s.effects
    case Performing(effect) => s'.threads[t] == Outside && s'.effects == s.effects + [effect]
    case _ =>
      var thread := s.threads[t];
      if thread.write then s'.threads[t] == Performing(Write(thread.graph, thread.before)) && s'.effects == s.effects
      else
        && s'.threads[t] == Outside
        && s'.effects == s.effects + [Drained(thread.graph, thread.teardownOnly, thread.before)]
  }

  /** No wake-up is lost: whatever has happened, once the worker has been given its turns everything
      enqueued has taken effect, and no thread inside a call is held up. */
  lemma DrainsReturn(threads: nat, events: seq<Event>) returns (n: nat)
    ensures var s := Run(Reached(threads, events), WorkerSteps(n));
            && Performed(s.effects) == s.enqueued
            && forall t :: 0 <= t < |s.threads| ==> GoesOn(s, t)
  {
    ReachedInv(threads, events);
    n := WorkerEmpties(Reached(threads, events));
    var s := Run(Reached(threads, events), WorkerSteps(n));
    hide Run, Performed;
    forall t | 0 <= t < |s.threads| ensures GoesOn(s, t) {
      IdleGoesOn(s, t);
    }
  }

  lemma IdleGoesOn(s: State, t: nat)
    requires Inv(s) && s.work.outstanding == 0 && t < |s.threads|
    ensures GoesOn(s, t)
  {
    assert ThreadOk(s, s.threads[t]);
    if !s.threads[t].Outside? && !s.threads[t].Performing? {
      var graph := s.threads[t].graph;
      NothingOutstanding(s, graph, true);
      NothingOutstanding(s, graph, false);
    }
    hide Performed, HasWork, Settled, Conserved, HistoryOk;
  }

  /** A call waits for nothing but matching work: with none of that left a drain returns within two steps
      of its own, and a write that had to wait goes ahead, whatever else is outstanding. */
  lemma WaitsForNothingElse(threads: nat, events: seq<Event>, t: nat)
    requires var s := Reached(threads, events);
             t < |s.threads| && (s.threads[t].Checking? || s.threads[t].Draining?) &&
             !HasWork(s.work, s.threads[t].graph, s.threads[t].teardownOnly)
    ensures var s := Reached(threads, events); var thread := s.threads[t];
            var s1 := Step(s, Continue(t, true));
            && t < |s1.threads|
            && var s2 := Step(s1, Continue(t, true));
               if thread.write then
                 Performing(Write(thread.graph, thread.before)) in [s1.threads[t], s2.threads[t]]
               else
                 && s2.threads == s.threads[t := Outside]
                 && s2.effects == s.effects + [Drained(thread.graph, thread.teardownOnly, thread.before)]
  {
    ReachedInv(threads, events);
    var s := Reached(threads, events);
    hide Reached, HasWork, Performed, Settled, Conserved, HistoryOk;
    assert ThreadOk(s, s.threads[t]);
  }

  // ---------------------------------------------------------------- work done without the queue

  /** When memory runs out work is done at once, whatever is queued. That keeps the order of the
      graph's work exactly when none of it is left: the test drains make, and this path does not. */
  lemma InlineOrder(s: State, graph: nat)
    requires Inv(s)
    ensures Settled(s.enqueued, |Performed(s.effects)|, graph, false, |s.enqueued|) <==>
            !HasWork(if s.worker == Done then s.work.(busy := None) else s.work, graph, false)
  {
    hide ThreadsOk, HistoryOk, Performed;
    SettledMeans(s.enqueued, Performed(s.effects), Undone(s), graph);
    UndoneWork(s, graph);
  }

  /** What is left of the work: in the queue, or taken but without effect so far. */
  function Undone(s: State): seq<Op> {
    (if s.worker == Busy then Running(s.work) else []) + s.work.queue
  }

  lemma SettledMeans(enqueued: seq<Op>, done: seq<Op>, rest: seq<Op>, graph: nat)
    requires enqueued == done + rest
    ensures Settled(enqueued, |done|, graph, false, |enqueued|) <==>
            forall j :: 0 <= j < |rest| ==> !Matches(rest[j], graph, false)
  {
    assert forall j :: 0 <= j < |rest| ==> enqueued[|done| + j] == rest[j];
    assert forall i :: |done| <= i < |enqueued| ==> enqueued[i] == rest[i - |done|];
  }

  lemma UndoneWork(s: State, graph: nat)
    requires Conserved(s)
    ensures (forall j :: 0 <= j < |Undone(s)| ==> !Matches(Undone(s)[j], graph, false)) <==>
            !HasWork(if s.worker == Done then s.work.(busy := None) else s.work, graph, false)
  {
    hide Performed;
    var q, rest := s.work.queue, Undone(s);
    if s.worker == Busy {
      assert rest[0] == s.work.busy.value;
      assert forall k :: 0 <= k < |q| ==> q[k] == rest[k + 1];
      assert forall j :: 1 <= j < |rest| ==> rest[j] == q[j - 1];
    } else {
      assert rest == q;
    }
  }

  lemma StepExtends(s: State, e: Event)
    ensures var s' := Step(s, e);
            && |s.effects| <= |s'.effects| <= |s.effects| + 1 && s'.effects[..|s.effects|] == s.effects
            && |s.enqueued| <= |s'.enqueued| && s'.enqueued[..|s.enqueued|] == s.enqueued
  {
    hide HasWork;
  }

  lemma {:induction false} RunSnoc(s: State, events: seq<Event>)
    requires events != []
    ensures Run(s, events) == Step(Run(s, events[..|events| - 1]), events[|events| - 1])
    decreases |events|
  {
    hide Step;
    var n := |events| - 1;
    if n == 0 {
      assert events[..0] == [] && events[1..] == [];
    } else {
      assert events[1..][..n - 1] == events[..n][1..] && events[..n][0] == events[0] && events[1..][n - 1] == events[n];
      RunSnoc(Step(s, events[0]), events[1..]);
    }
  }

  /** The step of a run at which its effect `k` happened, and the state just before. */
  lemma {:induction false} StepOfEffect(threads: nat, events: seq<Event>, k: nat) returns (n: nat)
    requires k < |Reached(threads, events).effects|
    ensures n < |events|
    ensures var full, s := Reached(threads, events), Reached(threads, events[..n]);
            && s.effects == full.effects[..k] && Step(s, events[n]).effects == full.effects[..k + 1]
            && |s.enqueued| <= |full.enqueued| && s.enqueued == full.enqueued[..|s.enqueued|]
    decreases |events|
  {
    hide Step;
    if events == [] {
      assert false;
    }
    var m := |events| - 1;
    var s := Reached(threads, events[..m]);
    RunSnoc(Initial(threads), events);
    StepExtends(s, events[m]);
    hide Run;
    if k < |s.effects| {
      n := StepOfEffect(threads, events[..m], k);
      assert events[..m][..n] == events[..n];
    } else {
      n := m;
    }
  }

  /** A parameter write that comes to be decided: behind a teardown that is not finished it is dropped,
      behind other work it joins the queue, or waits when there is no memory for that, and with
      nothing left on its graph it goes ahead. */
  lemma WriteDecided(s: State, t: nat, memory: bool)
    requires t < |s.threads| && s.threads[t].Deciding?
    ensures var s' := Step(s, Continue(t, memory)); var graph, before := s.threads[t].graph, s.threads[t].before;
            if TeardownLeft(s.work, graph) then
              s' == s.(threads := s.threads[t := Outside], effects := s.effects + [Dropped(graph)])
            else if !AnyLeft(s.work, graph) then
              s' == s.(threads := s.threads[t := Performing(Write(graph, before))])
            else if memory then
              && s'.enqueued == s.enqueued + [Op(graph, SetParameter)] && s'.threads == s.threads[t := Outside]
              && s'.work.queue == s.work.queue + [Op(graph, SetParameter)] && s'.effects == s.effects
            else s' == s.(threads := s.threads[t := Checking(graph, false, before, true)])
  {
    WorkLeft(s.work, s.threads[t].graph);
    hide HasWork, AnyLeft, TeardownLeft;
  }

  /** So no write is ever queued behind a teardown of its graph that is not finished. */
  lemma NoWriteBehindTeardown(threads: nat, events: seq<Event>, n: nat)
    requires n < |events| && events[n].Continue?
    requires Reached(threads, events[..n + 1]).enqueued != Reached(threads, events[..n]).enqueued
    ensures var s, t := Reached(threads, events[..n]), events[n].t;
            && t < |s.threads| && s.threads[t].Deciding?
            && Reached(threads, events[..n + 1]).enqueued == s.enqueued + [Op(s.threads[t].graph, SetParameter)]
            && !TeardownLeft(s.work, s.threads[t].graph)
  {
    ReachedNext(threads, events, n);
    var s, t := Reached(threads, events[..n]), events[n].t;
    hide Reached, AnyLeft, TeardownLeft, HasWork;
    if t < |s.threads| && s.threads[t].Deciding? {
      WriteDecided(s, t, events[n].memory);
    }
  }

  lemma DropSeesTeardown(s: State, e: Event, graph: nat)
    requires Inv(s) && Step(s, e).effects == s.effects + [Dropped(graph)]
    ensures HasWork(s.work, graph, true)
  {
    hide HasWork, Performed, Settled, Conserved, HistoryOk;
    var last := Step(s, e).effects[|s.effects|];
    assert last == Dropped(graph);
    if e.Continue? && e.t < |s.threads| {
      assert ThreadOk(s, s.threads[e.t]);
    }
  }

  /** A parameter write is dropped only in a state in which a teardown of its graph is queued or
      in progress. */
  lemma DroppedForTeardown(threads: nat, events: seq<Event>, k: nat) returns (n: nat)
    requires k < |Reached(threads, events).effects| && Reached(threads, events).effects[k].Dropped?
    ensures n < |events|
    ensures var effects, s := Reached(threads, events).effects, Reached(threads, events[..n]);
            && s.effects == effects[..k] && Step(s, events[n]).effects == effects[..k + 1]
            && HasWork(s.work, effects[k].graph, true)
  {
    n := StepOfEffect(threads, events, k);
    var effects, s := Reached(threads, events).effects, Reached(threads, events[..n]);
    ReachedInv(threads, events[..n]);
    hide Run, Inv, Step, HasWork;
    assert effects[..k + 1] == effects[..k] + [effects[k]];
    DropSeesTeardown(s, events[n], effects[k].graph);
  }

  /** Work of the graph is left that was among the first `before` to be enqueued. */
  predicate LeftBefore(s: State, graph: nat, before: nat) {
    exists j :: 0 <= j < |Undone(s)| && |s.enqueued| - |Undone(s)| + j < before && Matches(Undone(s)[j], graph, false)
  }

  lemma SettledBefore(enqueued: seq<Op>, done: seq<Op>, rest: seq<Op>, graph: nat, before: nat)
    requires enqueued == done + rest && before <= |enqueued|
    ensures Settled(enqueued, |done|, graph, false, before) <==>
            !exists j :: 0 <= j < |rest| && |done| + j < before && Matches(rest[j], graph, false)
  {
    assert forall j :: 0 <= j < |rest| ==> enqueued[|done| + j] == rest[j];
    assert forall i :: |done| <= i < |enqueued| ==> enqueued[i] == rest[i - |done|];
  }

  /** The same for any effect of a run that was done at once: it overtakes nothing that was
      enqueued before its call exactly when, at that point, none of it is left on its graph. */
  lemma InlineInRun(threads: nat, events: seq<Event>, k: nat) returns (n: nat)
    requires k < |Reached(threads, events).effects| && Reached(threads, events).effects[k].Inline?
    ensures n < |events|
    ensures var full, s := Reached(threads, events), Reached(threads, events[..n]);
            var e := full.effects[k];
            && s.effects == full.effects[..k]
            && (Settled(full.enqueued, |Performed(full.effects[..k])|, e.op.graph, false, e.before) <==>
                !LeftBefore(s, e.op.graph, e.before))
  {
    n := StepOfEffect(threads, events, k);
    var full, s := Reached(threads, events), Reached(threads, events[..n]);
    var e := full.effects[k];
    ReachedInv(threads, events[..n]);
    InlineBegan(threads, events, k, n);
    hide Run, ThreadsOk, HistoryOk, Performed;
    SettledBefore(s.enqueued, Performed(s.effects), Undone(s), e.op.graph, e.before);
    assert forall i :: 0 <= i < |s.enqueued| ==> full.enqueued[i] == s.enqueued[i];
  }

  /** An effect done at once was begun in the state it happens in, or earlier. */
  lemma InlineBegan(threads: nat, events: seq<Event>, k: nat, n: nat)
    requires k < |Reached(threads, events).effects| && Reached(threads, events).effects[k].Inline? && n < |events|
    requires Reached(threads, events[..n]).effects == Reached(threads, events).effects[..k]
    requires Step(Reached(threads, events[..n]), events[n]).effects == Reached(threads, events).effects[..k + 1]
    ensures Reached(threads, events).effects[k].before <= |Reached(threads, events[..n]).enqueued|
  {
    ReachedInv(threads, events[..n]);
    var s, full := Reached(threads, events[..n]), Reached(threads, events);
    hide Run, HasWork, Performed, Settled;
    assert full.effects[..k + 1][k] == full.effects[k];
    if events[n].Continue? && events[n].t < |s.threads| {
      assert ThreadOk(s, s.threads[events[n].t]);
    }
  }

  lemma {:induction false} SettledLater(threads: nat, events: seq<Event>, m: nat, n: nat, graph: nat, before: nat)
    requires m <= n <= |events|
    requires var s := Reached(threads, events[..m]); Settled(s.enqueued, |Performed(s.effects)|, graph, false, before)
    ensures var s := Reached(threads, events[..n]); Settled(s.enqueued, |Performed(s.effects)|, graph, false, before)
    decreases n
  {
    hide Step;
    if m < n {
      var s, s' := Reached(threads, events[..n - 1]), Reached(threads, events[..n]);
      SettledLater(threads, events, m, n - 1, graph, before);
      ReachedNext(threads, events, n - 1);
      StepExtends(s, events[n - 1]);
      PerformedPrefix(s'.effects, |s.effects|);
      hide Reached, Performed;
      assert forall i :: 0 <= i < |s.enqueued| ==> s'.enqueued[i] == s.enqueued[i];
    }
  }

  /** What thread `t` holds to perform is left to it until it continues. */
  lemma {:induction false} StillPerforming(threads: nat, events: seq<Event>, m: nat, n: nat, t: nat, effect: Effect)
    requires m <= n <= |events|
    requires forall k :: m <= k < n ==> !(events[k].Continue? && events[k].t == t)
    requires var s := Reached(threads, events[..m]); t < |s.threads| && s.threads[t] == Performing(effect)
    ensures var s := Reached(threads, events[..n]); t < |s.threads| && s.threads[t] == Performing(effect)
    decreases n
  {
    if m < n {
      var s := Reached(threads, events[..n - 1]);
      StillPerforming(threads, events, m, n - 1, t, effect);
      ReachedNext(threads, events, n - 1);
      hide Reached;
      OthersLeave(s, events[n - 1], t);
    }
  }

  lemma OthersLeave(s: State, e: Event, t: nat)
    requires t < |s.threads| && s.threads[t].Performing? && !(e.Continue? && e.t == t)
    ensures t < |Step(s, e).threads| && Step(s, e).threads[t] == s.threads[t]
  {
    hide HasWork;
  }

  /** For the caller: when the call finds none of its graph's work queued or in progress, what it
      does at once is in order, whatever happens between the call and its effect. */
  lemma InlineKeepsOrder(threads: nat, events: seq<Event>, m: nat, n: nat, t: nat, op: Op)
    requires m < n < |events| && events[m] == Enqueue(t, op, false) && events[n].Continue? && events[n].t == t
    requires forall k :: m < k < n ==> !(events[k].Continue? && events[k].t == t)
    requires var s := Reached(threads, events[..m]);
             t < |s.threads| && s.threads[t] == Outside && !HasWork(s.work, op.graph, false)
    ensures var before := |Reached(threads, events[..m]).enqueued|;
            var s, s' := Reached(threads, events[..n]), Reached(threads, events[..n + 1]);
            && s'.effects == s.effects + [Inline(op, before)]
            && Settled(s'.enqueued, |Performed(s.effects)|, op.graph, false, before)
  {
    var s0, before := Reached(threads, events[..m]), |Reached(threads, events[..m]).enqueued|;
    ReachedInv(threads, events[..m]);
    NoWorkSettles(s0, op.graph, false, before);
    ReachedNext(threads, events, m);
    ReachedNext(threads, events, n);
    hide Reached, Performed, Settled, HasWork, Inv;
    StillPerforming(threads, events, m + 1, n, t, Inline(op, before));
    SettledLater(threads, events, m, n, op.graph, before);
  }

  lemma ReachedNext(threads: nat, events: seq<Event>, n: nat)
    requires n < |events|
    ensures Reached(threads, events[..n + 1]) == Step(Reached(threads, events[..n]), events[n])
  {
    hide Run, Step;
    assert events[..n + 1][..n] == events[..n];
    RunSnoc(Initial(threads), events[..n + 1]);
  }

  /** A run in which it does not: a disposal done at once while the start before it is queued. */
  lemma InlineOvertakes()
    ensures var s := Reached(1, [Enqueue(0, Op(1, Start), true), Enqueue(0, Op(1, Dispose), false),
            Continue(0, false)]);
            s.enqueued == [Op(1, Start)] && Performed(s.effects) == [] && s.effects == [Inline(Op(1, Dispose), 1)]
  {
    var e0, e1, e2 := Enqueue(0, Op(1, Start), true), Enqueue(0, Op(1, Dispose), false), Continue(0, false);
    var s0 := Initial(1);
    assert [e0, e1, e2][1..] == [e1, e2] && [e1, e2][1..] == [e2] && [e2][1..] == [];
    var s1 := Step(s0, e0);
    var s2 := Step(s1, e1);
    var s3 := Step(s2, e2);
    assert Run(s2, [e2]) == Run(s3, []) == s3;
    assert Run(s1, [e1, e2]) == s3;
    assert s3.effects == [Inline(Op(1, Dispose), 1)];
    assert s3.effects[..0] == [];
  }

  predicate NoMemory(e: Event) {
    (e.Enqueue? || e.Continue?) ==> !e.memory
  }

  lemma StepWithoutMemory(s: State, e: Event)
    requires NoMemory(e)
    ensures Step(s, e).enqueued == s.enqueued
  {
    hide HasWork;
  }

  /** Without a worker nothing is ever queued, so nothing can be overtaken. */
  lemma {:induction false} WithoutWorker(s: State, events: seq<Event>)
    requires s.enqueued == [] && forall k :: 0 <= k < |events| ==> NoMemory(events[k])
    ensures Run(s, events).enqueued == []
    decreases |events|
  {
    hide Step;
    if events != [] {
      StepWithoutMemory(s, events[0]);
      WithoutWorker(Step(s, events[0]), events[1..]);
    }
  }
}
