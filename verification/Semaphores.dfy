/** Generation-tagged semaphores: the table, and the threads that wait (native/src/compat_runtime.c). */
module Semaphores {
  import opened Options

  const CAPACITY: nat := 4096
  const SLOT_RANGE: nat := 0x1_0000
  const WORD: nat := 0x1_0000_0000

  datatype Slot = Slot(count: int, maximum: int, generation: nat, initialized: bool, constructed: bool)
  datatype Table = Table(slots: seq<Slot>, highWater: nat)

  const UNUSED: Slot := Slot(0, 0, 0, false, false)

  function Handle(slot: nat, generation: nat): (handle: nat)
  {
    generation % SLOT_RANGE * SLOT_RANGE + slot
  }

  /** guest_semaphore_acquire: the slot a handle means, unless it is stale. */
  function Acquired(slots: seq<Slot>, handle: nat): (slot: Option<nat>)
    requires |slots| == CAPACITY
    ensures slot.Some? ==> 0 < slot.value < CAPACITY && slots[slot.value].constructed && slots[slot.value].initialized
  {
    var slot, generation := handle % SLOT_RANGE, handle / SLOT_RANGE;
    if slot == 0 || slot >= CAPACITY || !slots[slot].constructed then None
    else if !slots[slot].initialized || slots[slot].generation % SLOT_RANGE != generation then None
    else Some(slot)
  }

  function Bump(generation: nat): (g: nat)
    ensures g < WORD
  {
    (generation + 1) % WORD
  }

  /** The generation of the semaphore created next in a slot; none has a zero tag. */
  function NextLive(generation: nat): (g: nat)
    ensures g < WORD
  {
    if Bump(generation) % SLOT_RANGE == 0 then Bump(Bump(generation)) else Bump(generation)
  }

  /** The first slot from `from` on that is free, or the high-water mark. */
  function FirstFree(slots: seq<Slot>, from: nat, highWater: nat): (slot: nat)
    requires from <= highWater <= |slots|
    ensures from <= slot <= highWater
    ensures forall i :: from <= i < slot ==> slots[i].initialized
    ensures slot < highWater ==> !slots[slot].initialized
    decreases highWater - from
  {
    if from == highWater || !slots[from].initialized then from else FirstFree(slots, from + 1, highWater)
  }

  predicate TableOk(t: Table)
  {
    && |t.slots| == CAPACITY && 1 <= t.highWater <= CAPACITY
    && (forall i :: 0 <= i < CAPACITY && (i == 0 || i >= t.highWater) ==> t.slots[i] == UNUSED)
    && (forall i :: 1 <= i < t.highWater ==> t.slots[i].constructed && t.slots[i].generation < WORD)
  }

  function ChosenSlot(t: Table): (slot: nat)
    requires TableOk(t)
  {
    FirstFree(t.slots, 1, t.highWater)
  }

  function Created(t: Table, maximum: int, initial: int): (t': Table)
    requires TableOk(t)
    ensures TableOk(t')
  {
    var slot := ChosenSlot(t);
    if slot == CAPACITY then t
    else Table(t.slots[slot := Slot(initial, maximum, NextLive(t.slots[slot].generation), true, true)],
               if slot == t.highWater then slot + 1 else t.highWater)
  }

  function CreatedHandle(t: Table): (handle: nat)
    requires TableOk(t)
  {
    var slot := ChosenSlot(t);
    if slot == CAPACITY then 0 else Handle(slot, NextLive(t.slots[slot].generation))
  }

  function DeletedSlot(s: Slot): Slot {
    s.(initialized := false, generation := Bump(s.generation))
  }

  function SignalledSlot(s: Slot): Slot {
    if s.count < s.maximum then s.(count := s.count + 1) else s
  }

  function TakenSlot(s: Slot): Slot {
    s.(count := s.count - 1)
  }

  /** A creation fails exactly when every slot is live. Else the handle leads to the lowest free slot, which
      has become live with the given permits and limit; no other slot changes. */
  ghost predicate NewSemaphore(before: seq<Slot>, after: seq<Slot>, handle: nat, maximum: int, initial: int)
    requires |before| == |after| == CAPACITY
  {
    && (handle == 0 <==> forall i :: 1 <= i < CAPACITY ==> before[i].initialized)
    && (handle == 0 ==> after == before)
    && (handle != 0 ==>
          var i := handle % 0x1_0000;
          && 0 < i < CAPACITY && !before[i].initialized && (forall j :: 1 <= j < i ==> before[j].initialized)
          && after == before[i := Slot(initial, maximum, after[i].generation, true, true)]
          && Acquired(after, handle) == Some(i))
  }

  lemma CreatedMeans(t: Table, maximum: int, initial: int)
    requires TableOk(t)
    ensures NewSemaphore(t.slots, Created(t, maximum, initial).slots, CreatedHandle(t), maximum, initial)
  {
    var i := ChosenSlot(t);
    ChosenIsFree(t);
    if i < CAPACITY {
      HandleParts(i, NextLive(t.slots[i].generation));
      NeverZero(t.slots[i].generation);
    }
    hide NextLive, Handle, TableOk;
  }

  lemma NeverZero(generation: nat)
    requires generation < WORD
    ensures NextLive(generation) % SLOT_RANGE != 0
  {
  }

  // ---------------------------------------------------------------- the table

  function LiveCount(slots: seq<Slot>, n: nat): nat
    requires n <= |slots|
  {
    if n == 0 then 0 else LiveCount(slots, n - 1) + if slots[n - 1].initialized then 1 else 0
  }

  lemma {:induction false} LiveCountChange(slots: seq<Slot>, i: nat, s: Slot, n: nat)
    requires i < |slots| && n <= |slots|
    ensures LiveCount(slots[i := s], n) ==
            LiveCount(slots, n) + if i < n then (if s.initialized then 1 else 0) - (if slots[i].initialized then 1
              else 0) else 0
  {
    if n != 0 {
      LiveCountChange(slots, i, s, n - 1);
    }
  }

  class SemaphoreTable {
    const slots: array<Slot>
    var highWater: nat
    var liveCount: int

    ghost function Contents(): Table
      reads this, slots
    {
      Table(slots[..], highWater)
    }

    ghost predicate Valid()
      reads this, slots
    {
      TableOk(Contents()) && liveCount == LiveCount(slots[..], slots.Length)
    }

    constructor ()
      ensures Valid() && fresh(slots) && liveCount == 0
      ensures Contents() == Table(seq(CAPACITY, _ => UNUSED), 1)
    {
      slots := new Slot[CAPACITY](_ => UNUSED);
      highWater, liveCount := 1, 0;
      new;
      assert slots[..] == seq(CAPACITY, _ => UNUSED);
      NoneLive(slots[..], slots.Length);
    }

    /** guest_semaphore_create; 0 when the table is full. */
    method Create(maximum: int, initial: int) returns (handle: nat)
      requires Valid()
      modifies this, slots
      ensures Valid() && Contents() == Created(old(Contents()), maximum, initial)
      ensures handle == CreatedHandle(old(Contents()))
      ensures NewSemaphore(old(slots[..]), slots[..], handle, maximum, initial)
    {
      ghost var t := Contents();
      CreatedMeans(t, maximum, initial);
      hide NewSemaphore;
      var slot := 1;
      while slot < highWater && slots[slot].initialized
        invariant 1 <= slot <= highWater
        invariant FirstFree(slots[..], slot, highWater) == ChosenSlot(t)
      {
        slot := slot + 1;
      }
      if slot == highWater {
        if highWater >= CAPACITY {
          return 0;
        }
        highWater := highWater + 1;
      }
      var generation := (slots[slot].generation + 1) % WORD;
      if generation % SLOT_RANGE == 0 {
        generation := (generation + 1) % WORD;
      }
      LiveCountChange(slots[..], slot, Slot(initial, maximum, generation, true, true), slots.Length);
      slots[slot] := Slot(initial, maximum, generation, true, true);
      liveCount := liveCount + 1;
      handle := Handle(slot, generation);
      assert slots[..] == t.slots[slot := slots[slot]];
    }

    method Delete(handle: nat) returns (slot: Option<nat>)
      requires Valid()
      modifies this, slots
      ensures Valid() && slot == Acquired(old(slots[..]), handle) && highWater == old(highWater)
      ensures slots[..] == if slot.None? then old(slots[..])
              else old(slots[..])[slot.value := DeletedSlot(old(slots[..])[slot.value])]
      ensures slot.Some? ==>
                var was := old(slots[..])[slot.value];
                slots[..][slot.value] == was.(initialized := false, generation := (was.generation + 1) % WORD)
    {
      slot := Acquired(slots[..], handle);
      if slot.Some? {
        LiveCountChange(slots[..], slot.value, DeletedSlot(slots[slot.value]), slots.Length);
        slots[slot.value] := DeletedSlot(slots[slot.value]);
        liveCount := liveCount - 1;
      }
    }

    method Signal(handle: nat) returns (slot: Option<nat>)
      requires Valid()
      modifies slots
      ensures Valid() && slot == Acquired(old(slots[..]), handle)
      ensures slots[..] == if slot.None? then old(slots[..])
              else old(slots[..])[slot.value := SignalledSlot(old(slots[..])[slot.value])]
      ensures slot.Some? ==>
                var was := old(slots[..])[slot.value];
                slots[..][slot.value] == if was.count >= was.maximum then was else was.(count := was.count + 1)
    {
      slot := Acquired(slots[..], handle);
      if slot.Some? {
        LiveCountChange(slots[..], slot.value, SignalledSlot(slots[slot.value]), slots.Length);
        slots[slot.value] := SignalledSlot(slots[slot.value]);
      }
    }

    /** One turn of the loop of a wait, with the semaphore's mutex held. */
    method WaitTurn(slot: nat, generation: nat) returns (verdict: Verdict)
      requires Valid() && 0 < slot < CAPACITY
      modifies slots
      ensures Valid() && verdict == Judged(old(slots[..])[slot], generation)
      ensures slots[..] == if verdict == Take then old(slots[..])[slot := TakenSlot(old(slots[..])[slot])]
              else old(slots[..])
      ensures var was := old(slots[..])[slot];
              && (verdict == Refuse <==> !was.initialized || was.generation != generation)
              && (verdict == Sleep <==> was.initialized && was.generation == generation && was.count <= 0)
              && (verdict == Take ==> slots[..][slot] == was.(count := was.count - 1))
    {
      if slots[slot].initialized && slots[slot].generation == generation && slots[slot].count <= 0 {
        return Sleep;
      }
      if !slots[slot].initialized || slots[slot].generation != generation {
        return Refuse;
      }
      LiveCountChange(slots[..], slot, TakenSlot(slots[slot]), slots.Length);
      slots[slot] := TakenSlot(slots[slot]);
      verdict := Take;
    }
  }

  datatype Verdict = Sleep | Refuse | Take

  function Judged(s: Slot, generation: nat): Verdict {
    if !s.initialized || s.generation != generation then Refuse else if s.count <= 0 then Sleep else Take
  }

  lemma {:induction false} NoneLive(slots: seq<Slot>, n: nat)
    requires n <= |slots| && forall i :: 0 <= i < |slots| ==> slots[i] == UNUSED
    ensures LiveCount(slots, n) == 0
  {
    if n != 0 {
      NoneLive(slots, n - 1);
    }
  }

  // ---------------------------------------------------------------- threads and runs

  /** The history of a slot: how many semaphores it has held, and the permits of the last one. */
  datatype Books = Books(epoch: nat, initial: int, accepted: nat, taken: nat)

  /** A waiting thread remembers the generation it saw; `epoch` is history. */
  datatype Thread = Outside | Waiting(slot: nat, generation: nat, epoch: nat, asleep: bool)

  datatype State = State(table: Table, books: seq<Books>, threads: seq<Thread>)

  datatype Event =
    | Create(maximum: int, initial: int)
    | Delete(handle: nat)
    | Signal(handle: nat, t: nat)
    | Wait(t: nat, handle: nat, poll: bool)
    | Turn(t: nat)
    | Wake(t: nat)

  predicate SleepsOn(thread: Thread, slot: nat) {
    thread.Waiting? && thread.slot == slot && thread.asleep
  }

  function FirstSleeper(threads: seq<Thread>, slot: nat): (t: nat)
    ensures t <= |threads| && (t < |threads| ==> SleepsOn(threads[t], slot))
    ensures forall u :: 0 <= u < t ==> !SleepsOn(threads[u], slot)
  {
    if threads == [] || SleepsOn(threads[0], slot) then 0 else 1 + FirstSleeper(threads[1..], slot)
  }

  /** A signal wakes some sleeper, if there is one. */
  function Signalled(threads: seq<Thread>, slot: nat, t: nat): seq<Thread>
  {
    var u := if t < |threads| && SleepsOn(threads[t], slot) then t else FirstSleeper(threads, slot);
    if u == |threads| then threads else threads[u := threads[u].(asleep := false)]
  }

  function Woken(thread: Thread, slot: nat): Thread {
    if SleepsOn(thread, slot) then thread.(asleep := false) else thread
  }

  function Broadcast(threads: seq<Thread>, slot: nat): (r: seq<Thread>)
    ensures |r| == |threads| && forall u :: 0 <= u < |threads| ==> r[u] == Woken(threads[u], slot)
  {
    seq(|threads|, u requires 0 <= u < |threads| => Woken(threads[u], slot))
  }

  predicate Shaped(s: State) {
    && TableOk(s.table) && |s.books| == CAPACITY
    && forall t :: 0 <= t < |s.threads| && s.threads[t].Waiting? ==> 0 < s.threads[t].slot < CAPACITY
  }

  /** One slot, its history and the threads change. */
  function Update(s: State, i: nat, slot: Slot, books: Books, threads: seq<Thread>): State
    requires Shaped(s) && i < CAPACITY
  {
    State(s.table.(slots := s.table.slots[i := slot]), s.books[i := books], threads)
  }

  function Starts(s: State, t: nat, i: nat, poll: bool): State
    requires Shaped(s) && t < |s.threads| && i < CAPACITY
  {
    var slot, books := s.table.slots[i], s.books[i];
    if poll && slot.count <= 0 then s
    else if slot.count <= 0 then Update(s, i, slot, books,
      s.threads[t := Waiting(i, slot.generation, books.epoch, true)])
    else Update(s, i, TakenSlot(slot), books.(taken := books.taken + 1), s.threads)
  }

  function Turns(s: State, t: nat): State
    requires Shaped(s) && t < |s.threads| && s.threads[t].Waiting?
  {
    var thread := s.threads[t];
    var i := thread.slot;
    var slot, books := s.table.slots[i], s.books[i];
    match Judged(slot, thread.generation)
    case Refuse => Update(s, i, slot, books, s.threads[t := Outside])
    case Sleep => Update(s, i, slot, books, s.threads[t := thread.(asleep := true)])
    case Take => Update(s, i, TakenSlot(slot), books.(taken := books.taken + 1), s.threads[t := Outside])
  }

  /** The atomic steps: each holds the semaphore's mutex, or the table's lock, throughout. Events
      that cannot happen change nothing. */
  function Step(s: State, e: Event): State
    requires Shaped(s)
  {
    match e
    case Create(maximum, initial) =>
      var i := ChosenSlot(s.table);
      if i == CAPACITY then s
      else s.(table := Created(s.table, maximum, initial), books :=
        s.books[i := Books(s.books[i].epoch + 1, initial, 0, 0)])
    case Delete(handle) =>
      (match Acquired(s.table.slots, handle)
       case None => s
       case Some(i) => Update(s, i, DeletedSlot(s.table.slots[i]), s.books[i], Broadcast(s.threads, i)))
    case Signal(handle, t) =>
      (match Acquired(s.table.slots, handle)
       case None => s
       case Some(i) =>
         var slot, books := s.table.slots[i], s.books[i];
         Update(s, i, SignalledSlot(slot), if slot.count < slot.maximum then books.(accepted := books.accepted + 1)
           else books,
                Signalled(s.threads, i, t)))
    case Wait(t, handle, poll) =>
      if !(t < |s.threads| && s.threads[t] == Outside) || Acquired(s.table.slots, handle).None? then s
      else Starts(s, t, Acquired(s.table.slots, handle).value, poll)
    case Turn(t) =>
      if t < |s.threads| && s.threads[t].Waiting? && !s.threads[t].asleep then Turns(s, t) else s
    case Wake(t) =>
      if t < |s.threads| && s.threads[t].Waiting? then s.(threads := s.threads[t := s.threads[t].(asleep := false)])
        else s
  }

  // ---------------------------------------------------------------- what every run keeps

  /** The generation of a slot's semaphore, or of its absence, by how many it has held. */
  function GenerationAt(epoch: nat, live: bool): (g: nat)
    requires live ==> epoch > 0
    ensures g < WORD
  {
    (2 * epoch - if live then 1 else 0) % WORD
  }

  predicate SlotOk(slot: Slot, books: Books)
  {
    && (slot.initialized ==> books.epoch > 0)
    && slot.generation == GenerationAt(books.epoch, slot.initialized)
    && books.initial + books.accepted == books.taken + slot.count
    && (0 <= books.initial <= slot.maximum ==> 0 <= slot.count <= slot.maximum)
  }

  predicate ThreadOk(thread: Thread, slot: Slot, books: Books)
  {
    thread.Waiting? ==>
      && 0 < thread.epoch <= books.epoch && thread.generation == GenerationAt(thread.epoch, true)
      && (thread.asleep ==> slot.initialized && slot.generation == thread.generation)
  }

  /** How many threads are awake and about to look at the semaphore of that generation. */
  function Awake(threads: seq<Thread>, slot: nat, generation: nat): (n: nat)
  {
    if threads == [] then 0
    else Awake(threads[..|threads| - 1], slot, generation) + Looks(threads[|threads| - 1], slot, generation)
  }

  function Looks(thread: Thread, slot: nat, generation: nat): nat {
    if thread.Waiting? && thread.slot == slot && thread.generation == generation && !thread.asleep then 1 else 0
  }

  predicate SomeSleeper(threads: seq<Thread>, slot: nat) {
    exists t :: 0 <= t < |threads| && SleepsOn(threads[t], slot)
  }

  /** While a thread sleeps, permits do not outnumber the threads already awake to take them. */
  predicate WakesOk(threads: seq<Thread>, i: nat, slot: Slot)
  {
    SomeSleeper(threads, i) ==> slot.count <= Awake(threads, i, slot.generation)
  }

  ghost predicate Inv(s: State)
  {
    && Shaped(s)
    && (forall i :: 0 <= i < CAPACITY ==> SlotOk(s.table.slots[i], s.books[i]))
    && (forall t :: 0 <= t < |s.threads| && s.threads[t].Waiting? ==>
          ThreadOk(s.threads[t], s.table.slots[s.threads[t].slot], s.books[s.threads[t].slot]))
    && (forall i :: 0 <= i < CAPACITY ==> WakesOk(s.threads, i, s.table.slots[i]))
  }

  lemma {:induction false} AwakeChange(threads: seq<Thread>, t: nat, thread: Thread, slot: nat, generation: nat)
    requires t < |threads|
    ensures Awake(threads[t := thread], slot, generation) ==
            Awake(threads, slot, generation) + Looks(thread, slot, generation) - Looks(threads[t], slot, generation)
    decreases |threads|
  {
    hide Looks;
    var n := |threads| - 1;
    if t < n {
      AwakeChange(threads[..n], t, thread, slot, generation);
      assert threads[t := thread][..n] == threads[..n][t := thread];
    } else {
      assert threads[t := thread][..n] == threads[..n];
    }
  }

  lemma {:induction false} AwakeSame(threads: seq<Thread>, threads': seq<Thread>, slot: nat, generation: nat)
    requires |threads| == |threads'|
    requires forall u :: 0 <= u < |threads| ==>
             Looks(threads[u], slot, generation) == Looks(threads'[u], slot, generation)
    ensures Awake(threads, slot, generation) == Awake(threads', slot, generation)
    decreases |threads|
  {
    hide Looks;
    if threads != [] {
      var n := |threads| - 1;
      assert forall u :: 0 <= u < n ==> threads[..n][u] == threads[u] && threads'[..n][u] == threads'[u];
      AwakeSame(threads[..n], threads'[..n], slot, generation);
    }
  }

  /** The two lists differ only in threads that wait on slot `i`. */
  predicate OnlyAt(threads: seq<Thread>, threads': seq<Thread>, i: nat)
  {
    && |threads| == |threads'|
    && forall u :: 0 <= u < |threads| && threads'[u] != threads[u] ==>
         (threads[u].Waiting? ==> threads[u].slot == i) && (threads'[u].Waiting? ==> threads'[u].slot == i)
  }

  lemma OthersWake(threads: seq<Thread>, threads': seq<Thread>, i: nat, j: nat, slot: Slot)
    requires OnlyAt(threads, threads', i) && i != j && WakesOk(threads, j, slot)
    ensures WakesOk(threads', j, slot)
  {
    AwakeSame(threads, threads', j, slot.generation);
    hide Awake;
    if SomeSleeper(threads', j) {
      var t :| 0 <= t < |threads'| && SleepsOn(threads'[t], j);
      assert SleepsOn(threads[t], j);
    }
  }

  /** Whatever happens to one slot and the threads waiting on it leaves the rest as it was. */
  lemma UpdateKeeps(s: State, i: nat, slot: Slot, books: Books, threads: seq<Thread>)
    requires Inv(s) && 0 < i < CAPACITY && TableOk(s.table.(slots := s.table.slots[i := slot]))
    requires SlotOk(slot, books) && OnlyAt(s.threads, threads, i)
    requires forall t :: 0 <= t < |threads| && threads[t].Waiting? && threads[t].slot == i ==>
             ThreadOk(threads[t], slot, books)
    requires WakesOk(threads, i, slot)
    ensures Inv(Update(s, i, slot, books, threads))
  {
    var s' := Update(s, i, slot, books, threads);
    hide SlotOk, ThreadOk, WakesOk, TableOk;
    forall j | 0 <= j < CAPACITY ensures WakesOk(threads, j, s'.table.slots[j]) {
      if j != i {
        OthersWake(s.threads, threads, i, j, s.table.slots[j]);
      }
    }
    assert Shaped(s');
  }

  // ---------------------------------------------------------------- generations

  lemma DeletedGeneration(epoch: nat)
    requires epoch > 0
    ensures Bump(GenerationAt(epoch, true)) == GenerationAt(epoch, false)
  {
  }

  lemma CreatedGeneration(epoch: nat)
    ensures NextLive(GenerationAt(epoch, false)) == GenerationAt(epoch + 1, true)
  {
  }

  /** Live generations are odd, free ones even. */
  lemma GenerationParity(epoch: nat, live: bool)
    requires live ==> epoch > 0
    ensures GenerationAt(epoch, live) % 2 == if live then 1 else 0
  {
  }

  /** The tag in a handle comes back after 32,768 semaphores in the slot, the generation a
      waiter keeps after 2,147,483,648. */
  lemma SameTag(e: nat, f: nat)
    requires e > 0 && f > 0
    ensures GenerationAt(e, true) % SLOT_RANGE == GenerationAt(f, true) % SLOT_RANGE <==> (e - f) % 0x8000 == 0
  {
    WordTag(2 * e - 1);
    WordTag(2 * f - 1);
    OddTags(e, f);
  }

  lemma OddTags(e: nat, f: nat)
    requires e > 0 && f > 0
    ensures (2 * e - 1) % SLOT_RANGE == (2 * f - 1) % SLOT_RANGE <==> (e - f) % 0x8000 == 0
  {
    var p, q := (2 * e - 1) / SLOT_RANGE, (2 * f - 1) / SLOT_RANGE;
    if (2 * e - 1) % SLOT_RANGE == (2 * f - 1) % SLOT_RANGE {
      assert e - f == 0x8000 * (p - q);
    }
    if (e - f) % 0x8000 == 0 {
      var k := (e - f) / 0x8000;
      assert 2 * e - 1 == (2 * f - 1) + SLOT_RANGE * k;
    }
  }

  lemma WordTag(x: nat)
    ensures x % WORD % SLOT_RANGE == x % SLOT_RANGE
  {
  }

  lemma SameGeneration(e: nat, f: nat)
    requires e > 0 && f > 0
    ensures GenerationAt(e, true) == GenerationAt(f, true) <==> (e - f) % 0x8000_0000 == 0
  {
  }

  // ---------------------------------------------------------------- the steps keep it

  lemma CreateKeeps(s: State, maximum: int, initial: int)
    requires Inv(s)
    ensures Inv(Step(s, Create(maximum, initial)))
  {
    var i := ChosenSlot(s.table);
    if i != CAPACITY {
      var free, books := s.table.slots[i], Books(s.books[i].epoch + 1, initial, 0, 0);
      var slot := Slot(initial, maximum, NextLive(free.generation), true, true);
      assert SlotOk(free, s.books[i]);
      CreatedGeneration(s.books[i].epoch);
      hide GenerationAt, NextLive, Awake;
      assert SlotOk(slot, books);
      NobodySleeps(s, i);
      hide SlotOk, WakesOk;
      var s' := Step(s, Create(maximum, initial));
      forall j | 0 <= j < CAPACITY ensures WakesOk(s.threads, j, s'.table.slots[j]) {
        if j == i { NoSleeperWakes(s.threads, i, slot); }
      }
    }
  }

  lemma NobodySleeps(s: State, i: nat)
    requires Inv(s) && i < CAPACITY && !s.table.slots[i].initialized
    ensures !SomeSleeper(s.threads, i)
  {
    hide SlotOk, WakesOk;
  }

  lemma NoSleeperWakes(threads: seq<Thread>, i: nat, slot: Slot)
    requires !SomeSleeper(threads, i)
    ensures WakesOk(threads, i, slot)
  {
  }

  lemma DeleteKeeps(s: State, handle: nat)
    requires Inv(s)
    ensures Inv(Step(s, Delete(handle)))
  {
    var found := Acquired(s.table.slots, handle);
    if found.Some? {
      var i := found.value;
      var slot, threads := s.table.slots[i], Broadcast(s.threads, i);
      assert SlotOk(slot, s.books[i]);
      DeletedGeneration(s.books[i].epoch);
      hide GenerationAt, Bump, Awake, Broadcast;
      assert SlotOk(DeletedSlot(slot), s.books[i]);
      NoSleeperWakes(threads, i, DeletedSlot(slot));
      hide SlotOk, WakesOk;
      UpdateKeeps(s, i, DeletedSlot(slot), s.books[i], threads);
    }
  }

  lemma SignalledThreads(s: State, i: nat, t: nat)
    requires Inv(s) && 0 < i < CAPACITY
    ensures var threads := Signalled(s.threads, i, t);
            && OnlyAt(s.threads, threads, i)
            && (forall u :: 0 <= u < |threads| && threads[u].Waiting? && threads[u].slot == i ==>
                  s.threads[u].Waiting? && threads[u].epoch == s.threads[u].epoch
                    && threads[u].generation == s.threads[u].generation
                  && (threads[u].asleep ==> s.threads[u].asleep) && s.threads[u].slot == i)
            && (SomeSleeper(threads, i) ==>
                  SomeSleeper(s.threads, i) &&
                  Awake(threads, i, s.table.slots[i].generation) ==
                    Awake(s.threads, i, s.table.slots[i].generation) + 1)
  {
    hide SlotOk, WakesOk, Awake;
    var generation := s.table.slots[i].generation;
    var u := if t < |s.threads| && SleepsOn(s.threads[t], i) then t else FirstSleeper(s.threads, i);
    if u < |s.threads| {
      AwakeChange(s.threads, u, s.threads[u].(asleep := false), i, generation);
      assert SleepsOn(s.threads[u], i);
    }
  }

  lemma SignalOk(slot: Slot, books: Books)
    requires SlotOk(slot, books) && slot.initialized
    ensures SlotOk(SignalledSlot(slot), if slot.count < slot.maximum then books.(accepted := books.accepted + 1)
            else books)
  {
    hide GenerationAt;
  }

  lemma SignalWakes(s: State, i: nat, t: nat)
    requires Inv(s) && 0 < i < CAPACITY
    ensures WakesOk(Signalled(s.threads, i, t), i, SignalledSlot(s.table.slots[i]))
  {
    assert WakesOk(s.threads, i, s.table.slots[i]);
    SignalledThreads(s, i, t);
    hide Awake, SomeSleeper, Signalled, SlotOk, TableOk;
  }

  lemma SignalKeeps(s: State, handle: nat, t: nat)
    requires Inv(s)
    ensures Inv(Step(s, Signal(handle, t)))
  {
    var found := Acquired(s.table.slots, handle);
    if found.Some? {
      var i := found.value;
      var slot, books, threads := s.table.slots[i], s.books[i], Signalled(s.threads, i, t);
      var books' := if slot.count < slot.maximum then books.(accepted := books.accepted + 1) else books;
      assert SlotOk(slot, books) && WakesOk(s.threads, i, slot);
      SignalledThreads(s, i, t);
      SignalOk(slot, books);
      SignalWakes(s, i, t);
      InUse(s, i);
      hide GenerationAt, Awake, Signalled, SlotOk, WakesOk, SomeSleeper;
      UpdateKeeps(s, i, SignalledSlot(slot), books', threads);
    }
  }

  /** One thread waiting on a slot changes; the awake ones change accordingly. */
  lemma OneThread(threads: seq<Thread>, t: nat, thread: Thread, i: nat, generation: nat)
    requires t < |threads| && (threads[t].Waiting? ==> threads[t].slot == i) && (thread.Waiting? ==> thread.slot == i)
    ensures OnlyAt(threads, threads[t := thread], i)
    ensures Awake(threads[t := thread], i, generation) ==
            Awake(threads, i, generation) + Looks(thread, i, generation) - Looks(threads[t], i, generation)
    ensures SomeSleeper(threads[t := thread], i) ==> SomeSleeper(threads, i) || SleepsOn(thread, i)
  {
    AwakeChange(threads, t, thread, i, generation);
    hide Awake, Looks;
    if SomeSleeper(threads[t := thread], i) && !SleepsOn(thread, i) {
      var u :| 0 <= u < |threads| && SleepsOn(threads[t := thread][u], i);
      assert SleepsOn(threads[u], i);
    }
  }

  lemma TakeOk(slot: Slot, books: Books)
    requires SlotOk(slot, books) && slot.initialized && slot.count > 0
    ensures SlotOk(TakenSlot(slot), books.(taken := books.taken + 1))
  {
  }

  /** A thread may change if the permits that it leaves are still no more than the threads awake. */
  lemma OneThreadWakes(threads: seq<Thread>, t: nat, thread: Thread, i: nat, slot: Slot, slot': Slot)
    requires t < |threads| && (threads[t].Waiting? ==> threads[t].slot == i) && (thread.Waiting? ==> thread.slot == i)
    requires WakesOk(threads, i, slot) && slot'.generation == slot.generation
    requires (SleepsOn(thread, i) ==> slot'.count <= 0)
    requires slot'.count - slot.count <= Looks(thread, i, slot.generation) - Looks(threads[t], i, slot.generation)
             || slot'.count <= 0
    ensures WakesOk(threads[t := thread], i, slot') && OnlyAt(threads, threads[t := thread], i)
  {
    OneThread(threads, t, thread, i, slot.generation);
    hide Looks, SomeSleeper;
  }

  lemma StartsKeeps(s: State, t: nat, i: nat, poll: bool)
    requires Inv(s) && t < |s.threads| && s.threads[t] == Outside && 0 < i < s.table.highWater
    requires s.table.slots[i].initialized
    ensures Inv(Starts(s, t, i, poll))
  {
    var slot, books := s.table.slots[i], s.books[i];
    assert SlotOk(slot, books) && WakesOk(s.threads, i, slot);
    hide WakesOk, Awake, GenerationAt;
    if !poll && slot.count <= 0 {
      var thread := Waiting(i, slot.generation, books.epoch, true);
      OneThreadWakes(s.threads, t, thread, i, slot, slot);
      UpdateKeeps(s, i, slot, books, s.threads[t := thread]);
    } else if slot.count > 0 {
      TakeOk(slot, books);
      OneThreadWakes(s.threads, t, Outside, i, slot, TakenSlot(slot));
      assert s.threads[t := Outside] == s.threads;
      UpdateKeeps(s, i, TakenSlot(slot), books.(taken := books.taken + 1), s.threads);
    }
  }

  lemma RefuseKeeps(s: State, t: nat)
    requires Inv(s) && t < |s.threads| && s.threads[t].Waiting? && !s.threads[t].asleep
    requires Judged(s.table.slots[s.threads[t].slot], s.threads[t].generation) == Refuse
    ensures Inv(Turns(s, t))
  {
    var i := s.threads[t].slot;
    var slot, books := s.table.slots[i], s.books[i];
    if slot.initialized {
      OneThreadWakes(s.threads, t, Outside, i, slot, slot);
      InUse(s, i);
    } else {
      NobodySleeps(s, i);
      OneThread(s.threads, t, Outside, i, slot.generation);
      NoSleeperWakes(s.threads[t := Outside], i, slot);
      TableSame(s.table, i);
    }
    hide WakesOk, SlotOk, Awake, SomeSleeper, TableOk;
    TableSame(s.table, i);
    UpdateKeeps(s, i, slot, books, s.threads[t := Outside]);
  }

  lemma TableSame(t: Table, i: nat)
    requires TableOk(t) && i < CAPACITY
    ensures TableOk(t.(slots := t.slots[i := t.slots[i]]))
  {
    assert t.slots[i := t.slots[i]] == t.slots;
  }

  lemma SleepKeeps(s: State, t: nat)
    requires Inv(s) && t < |s.threads| && s.threads[t].Waiting? && !s.threads[t].asleep
    requires Judged(s.table.slots[s.threads[t].slot], s.threads[t].generation) == Sleep
    ensures Inv(Turns(s, t))
  {
    var thread, i := s.threads[t].(asleep := true), s.threads[t].slot;
    var slot, books := s.table.slots[i], s.books[i];
    OneThreadWakes(s.threads, t, thread, i, slot, slot);
    TableSame(s.table, i);
    assert ThreadOk(s.threads[t], slot, books);
    hide WakesOk, SlotOk, Awake, SomeSleeper, TableOk;
    UpdateKeeps(s, i, slot, books, s.threads[t := thread]);
  }

  lemma TakeKeeps(s: State, t: nat)
    requires Inv(s) && t < |s.threads| && s.threads[t].Waiting? && !s.threads[t].asleep
    requires Judged(s.table.slots[s.threads[t].slot], s.threads[t].generation) == Take
    ensures Inv(Turns(s, t))
  {
    var i := s.threads[t].slot;
    var slot, books := s.table.slots[i], s.books[i];
    InUse(s, i);
    TakeOk(slot, books);
    OneThreadWakes(s.threads, t, Outside, i, slot, TakenSlot(slot));
    hide WakesOk, SlotOk, Awake, SomeSleeper;
    UpdateKeeps(s, i, TakenSlot(slot), books.(taken := books.taken + 1), s.threads[t := Outside]);
  }

  lemma TurnsKeeps(s: State, t: nat)
    requires Inv(s) && t < |s.threads| && s.threads[t].Waiting? && !s.threads[t].asleep
    ensures Inv(Turns(s, t))
  {
    assert Shaped(s);
    hide Inv, Turns;
    match Judged(s.table.slots[s.threads[t].slot], s.threads[t].generation)
    case Refuse => RefuseKeeps(s, t);
    case Sleep => SleepKeeps(s, t);
    case Take => TakeKeeps(s, t);
  }

  lemma InUse(s: State, i: nat)
    requires Shaped(s) && i < CAPACITY && s.table.slots[i].initialized
    ensures 0 < i < s.table.highWater
  {
  }

  lemma WakeKeeps(s: State, t: nat)
    requires Inv(s) && t < |s.threads| && s.threads[t].Waiting?
    ensures Inv(Step(s, Wake(t)))
  {
    var thread := s.threads[t];
    var i := thread.slot;
    var slot, books := s.table.slots[i], s.books[i];
    assert SlotOk(slot, books) && WakesOk(s.threads, i, slot) && ThreadOk(thread, slot, books);
    OneThread(s.threads, t, thread.(asleep := false), i, slot.generation);
    assert WakesOk(s.threads[t := thread.(asleep := false)], i, slot);
    hide SlotOk, WakesOk, Awake;
    UpdateKeeps(s, i, slot, books, s.threads[t := thread.(asleep := false)]);
    assert s.table.slots[i := slot] == s.table.slots && s.books[i := books] == s.books;
  }

  lemma StepKeeps(s: State, e: Event)
    requires Inv(s)
    ensures Inv(Step(s, e))
  {
    hide SlotOk, ThreadOk, WakesOk;
    match e
    case Create(maximum, initial) => CreateKeeps(s, maximum, initial);
    case Delete(handle) => DeleteKeeps(s, handle);
    case Signal(handle, t) => SignalKeeps(s, handle, t);
    case Wait(t, handle, poll) =>
      if t < |s.threads| && s.threads[t] == Outside && Acquired(s.table.slots, handle).Some? {
        InUse(s, Acquired(s.table.slots, handle).value);
        StartsKeeps(s, t, Acquired(s.table.slots, handle).value, poll);
      }
    case Turn(t) =>
      if t < |s.threads| && s.threads[t].Waiting? && !s.threads[t].asleep { TurnsKeeps(s, t); }
    case Wake(t) =>
      if t < |s.threads| && s.threads[t].Waiting? { WakeKeeps(s, t); }
  }

  function Run(s: State, events: seq<Event>): State
    requires Inv(s)
    decreases |events|
  {
    if events == [] then s else StepKeeps(s, events[0]); Run(Step(s, events[0]), events[1..])
  }

  lemma {:induction false} RunKeeps(s: State, events: seq<Event>)
    requires Inv(s)
    ensures Inv(Run(s, events))
    decreases |events|
  {
    hide Inv, Step;
    if events != [] {
      InvShaped(s);
      StepKeeps(s, events[0]);
      RunKeeps(Step(s, events[0]), events[1..]);
    }
  }

  lemma InvShaped(s: State)
    requires Inv(s)
    ensures Shaped(s)
  {
  }

  function Initial(threads: nat): (s: State)
    ensures Inv(s)
  {
    State(Table(seq(CAPACITY, _ => UNUSED), 1), seq(CAPACITY, _ => Books(0, 0, 0, 0)), seq(threads, _ => Outside))
  }

  // ---------------------------------------------------------------- what that means

  /** Every permit is accounted for, and the count stays within its bounds. */
  lemma PermitsConserved(threads: nat, events: seq<Event>, i: nat)
    requires i < CAPACITY
    ensures var s := Run(Initial(threads), events);
            && Shaped(s)
            && s.books[i].initial + s.books[i].accepted == s.books[i].taken + s.table.slots[i].count
            && (0 <= s.books[i].initial <= s.table.slots[i].maximum ==>
              0 <= s.table.slots[i].count <= s.table.slots[i].maximum)
            && s.table.slots[i].generation % 2 == if s.table.slots[i].initialized then 1 else 0
  {
    RunKeeps(Initial(threads), events);
    var s := Run(Initial(threads), events);
    assert SlotOk(s.table.slots[i], s.books[i]);
    GenerationParity(s.books[i].epoch, s.table.slots[i].initialized);
    hide Run, WakesOk, ThreadOk, GenerationAt;
  }

  /** The handle given to the `epoch`-th semaphore of a slot is good exactly while a semaphore
      lives there that is a multiple of 32,768 later: its own, or one long after. */
  predicate GoodWhile(s: State, i: nat, epoch: nat)
    requires Shaped(s) && i < CAPACITY && epoch > 0
  {
    && (Acquired(s.table.slots, Handle(i, GenerationAt(epoch, true))) == Some(i) <==>
        s.table.slots[i].initialized && (s.books[i].epoch - epoch) % 0x8000 == 0)
    && (ChosenSlot(s.table) == i ==>
          CreatedHandle(s.table) == Handle(i, GenerationAt(s.books[i].epoch + 1, true)))
  }

  lemma HandleIsGood(threads: nat, events: seq<Event>, i: nat, epoch: nat)
    requires 0 < i < CAPACITY && epoch > 0
    ensures var s := Run(Initial(threads), events); Shaped(s) && GoodWhile(s, i, epoch)
  {
    hide Run, Inv, GoodWhile, Shaped;
    RunKeeps(Initial(threads), events);
    InvShaped(Run(Initial(threads), events));
    GoodInState(Run(Initial(threads), events), i, epoch);
  }

  lemma GoodInState(s: State, i: nat, epoch: nat)
    requires Inv(s) && 0 < i < CAPACITY && epoch > 0
    ensures GoodWhile(s, i, epoch)
  {
    GoodHandle(s, i, epoch);
    if ChosenSlot(s.table) == i {
      NextHandle(s, i);
    }
    hide Inv, Acquired, GenerationAt, Handle, CreatedHandle, TableOk;
  }

  lemma GoodHandle(s: State, i: nat, epoch: nat)
    requires Inv(s) && 0 < i < CAPACITY && epoch > 0
    ensures Acquired(s.table.slots, Handle(i, GenerationAt(epoch, true))) == Some(i) <==>
            s.table.slots[i].initialized && (s.books[i].epoch - epoch) % 0x8000 == 0
  {
    var slot := s.table.slots[i];
    assert SlotOk(slot, s.books[i]);
    hide WakesOk, ThreadOk;
    HandleParts(i, GenerationAt(epoch, true));
    if slot.initialized {
      SameTag(s.books[i].epoch, epoch);
      InUse(s, i);
    }
    hide GenerationAt, Handle, TableOk;
  }

  lemma NextHandle(s: State, i: nat)
    requires Inv(s) && 0 < i < CAPACITY && ChosenSlot(s.table) == i
    ensures CreatedHandle(s.table) == Handle(i, GenerationAt(s.books[i].epoch + 1, true))
  {
    assert SlotOk(s.table.slots[i], s.books[i]);
    hide WakesOk, ThreadOk, Handle, NextLive;
    ChosenIsFree(s.table);
    CreatedGeneration(s.books[i].epoch);
  }

  lemma HandleParts(slot: nat, generation: nat)
    requires slot < CAPACITY
    ensures Handle(slot, generation) % SLOT_RANGE == slot
    ensures Handle(slot, generation) / SLOT_RANGE == generation % SLOT_RANGE
  {
  }

  // ---------------------------------------------------------------- a handle comes back

  /** A semaphore is created and deleted. */
  function Pair(s: State): seq<Event>
    requires Inv(s)
  {
    [Create(1, 0), Delete(CreatedHandle(s.table))]
  }

  function AfterPair(s: State): (s': State)
    requires Inv(s)
    ensures Inv(s')
  {
    StepKeeps(s, Create(1, 0));
    StepKeeps(Step(s, Create(1, 0)), Delete(CreatedHandle(s.table)));
    Step(Step(s, Create(1, 0)), Delete(CreatedHandle(s.table)))
  }

  function Pairs(s: State, n: nat): seq<Event>
    requires Inv(s)
    decreases n
  {
    if n == 0 then [] else Pair(s) + Pairs(AfterPair(s), n - 1)
  }

  lemma FirstFreeIs(slots: seq<Slot>, from: nat, highWater: nat, i: nat)
    requires from <= i <= highWater <= |slots| && (i < highWater ==> !slots[i].initialized)
    requires forall j :: from <= j < i ==> slots[j].initialized
    ensures FirstFree(slots, from, highWater) == i
  {
  }

  lemma CreateTakes(s: State, i: nat)
    requires Inv(s) && ChosenSlot(s.table) == i < CAPACITY
    ensures var s' := Step(s, Create(1, 0));
            && Shaped(s') && 0 < i < s'.table.highWater && s'.table.slots[i].initialized
            && s'.books[i].epoch == s.books[i].epoch + 1
            && Acquired(s'.table.slots, CreatedHandle(s.table)) == Some(i)
            && forall j :: 1 <= j < i ==> s'.table.slots[j].initialized
  {
    HandleParts(i, NextLive(s.table.slots[i].generation));
    hide Handle, NextLive;
  }

  lemma DeleteFrees(s: State, i: nat, handle: nat)
    requires Shaped(s) && Acquired(s.table.slots, handle) == Some(i) && 0 < i < s.table.highWater
    requires forall j :: 1 <= j < i ==> s.table.slots[j].initialized
    ensures var s' := Step(s, Delete(handle));
            TableOk(s'.table) ==> ChosenSlot(s'.table) == i && s'.books == s.books
  {
    var s' := Step(s, Delete(handle));
    if TableOk(s'.table) {
      FirstFreeIs(s'.table.slots, 1, s'.table.highWater, i);
    }
  }

  /** The pair leaves the slot first in line, one semaphore on. */
  lemma PairMoves(s: State, i: nat)
    requires Inv(s) && ChosenSlot(s.table) == i < CAPACITY
    ensures ChosenSlot(AfterPair(s).table) == i && AfterPair(s).books[i].epoch == s.books[i].epoch + 1
  {
    hide Step, Acquired, SlotOk, WakesOk, ThreadOk, ChosenSlot, CreatedHandle;
    CreateTakes(s, i);
    DeleteFrees(Step(s, Create(1, 0)), i, CreatedHandle(s.table));
  }

  lemma RunTwo(s: State, a: Event, b: Event, rest: seq<Event>)
    requires Inv(s) && Inv(Step(s, a)) && Inv(Step(Step(s, a), b))
    ensures Run(s, [a, b] + rest) == Run(Step(Step(s, a), b), rest)
  {
    hide Inv, Step;
    assert [a, b] + rest == [a] + ([b] + rest);
    assert ([a] + ([b] + rest))[1..] == [b] + rest && ([b] + rest)[1..] == rest;
  }

  lemma {:induction false} AfterPairs(s: State, i: nat, n: nat)
    requires Inv(s) && ChosenSlot(s.table) == i < CAPACITY
    ensures var s' := Run(s, Pairs(s, n) + [Create(1, 0)]);
            Inv(s') && s'.table.slots[i].initialized && s'.books[i].epoch == s.books[i].epoch + n + 1
    decreases n
  {
    hide Step, Inv, ChosenSlot, CreatedHandle;
    InvShaped(s);
    StepKeeps(s, Create(1, 0));
    if n == 0 {
      assert [] + [Create(1, 0)] == [Create(1, 0)] && [Create(1, 0)][1..] == [];
      CreateTakes(s, i);
    } else {
      var rest := Pairs(AfterPair(s), n - 1) + [Create(1, 0)];
      PairMoves(s, i);
      AfterPairs(AfterPair(s), i, n - 1);
      InvShaped(Step(s, Create(1, 0)));
      StepKeeps(Step(s, Create(1, 0)), Delete(CreatedHandle(s.table)));
      RunTwo(s, Create(1, 0), Delete(CreatedHandle(s.table)), rest);
      assert Pairs(s, n) + [Create(1, 0)] == Pair(s) + rest;
    }
  }

  /** The handle given out next, its semaphore deleted and `n` - 1 others created and deleted after
      it, is good for the one created then exactly when `n` is a multiple of 32,768. */
  lemma StaleHandleReturns(threads: nat, events: seq<Event>, i: nat, n: nat)
    requires var s := Run(Initial(threads), events); Inv(s) && ChosenSlot(s.table) == i < CAPACITY
    ensures var s := Run(Initial(threads), events); var s' := Run(s, Pairs(s, n) + [Create(1, 0)]);
            && Shaped(s')
            && (Acquired(s'.table.slots, CreatedHandle(s.table)) == Some(i) <==> n % 0x8000 == 0)
  {
    hide Run, Inv, Acquired;
    var s := Run(Initial(threads), events);
    InvShaped(s);
    AfterPairs(s, i, n);
    NextHandle(s, i);
    var s' := Run(s, Pairs(s, n) + [Create(1, 0)]);
    InvShaped(s');
    GoodHandle(s', i, s.books[i].epoch + 1);
  }

  /** A semaphore is refused only when every slot is live. */
  lemma ChosenIsFree(t: Table)
    requires TableOk(t)
    ensures ChosenSlot(t) == CAPACITY <==> forall i :: 1 <= i < CAPACITY ==> t.slots[i].initialized
    ensures ChosenSlot(t) < CAPACITY ==> !t.slots[ChosenSlot(t)].initialized
  {
    var slot := ChosenSlot(t);
    if slot < CAPACITY {
      assert !t.slots[slot].initialized;
    }
  }

  /** The thread is about to be granted a permit. */
  predicate Grants(s: State, t: nat)
  {
    && Shaped(s) && t < |s.threads| && s.threads[t].Waiting? && !s.threads[t].asleep
    && Judged(s.table.slots[s.threads[t].slot], s.threads[t].generation) == Take
  }

  /** It gets that of the semaphore it began to wait for, or of one a multiple of 2,147,483,648 later. */
  predicate GetsItsOwn(s: State, t: nat)
    requires Grants(s, t)
  {
    var books := s.books[s.threads[t].slot];
    && Step(s, Turn(t)).books[s.threads[t].slot].taken == books.taken + 1
    && (books.epoch - s.threads[t].epoch) % 0x8000_0000 == 0
    && (books.epoch < s.threads[t].epoch + 0x8000_0000 ==> books.epoch == s.threads[t].epoch)
  }

  /** A wait is granted only by the semaphore it began on, unless a multiple of 2,147,483,648
      semaphores have been created in the slot while it slept. */
  lemma WaiterTakesItsOwn(threads: nat, events: seq<Event>, t: nat)
    requires Grants(Run(Initial(threads), events), t)
    ensures GetsItsOwn(Run(Initial(threads), events), t)
  {
    hide Run, Inv, Grants, GetsItsOwn;
    RunKeeps(Initial(threads), events);
    GrantedToItsOwn(Run(Initial(threads), events), t);
  }

  lemma GrantedToItsOwn(s: State, t: nat)
    requires Inv(s) && Grants(s, t)
    ensures GetsItsOwn(s, t)
  {
    var slot, books := s.table.slots[s.threads[t].slot], s.books[s.threads[t].slot];
    assert SlotOk(slot, books) && ThreadOk(s.threads[t], slot, books);
    SameGeneration(books.epoch, s.threads[t].epoch);
    hide GenerationAt, WakesOk, TableOk;
  }

  /** The thread's next turn brings it back from its wait. */
  predicate Returns(s: State, t: nat) {
    Shaped(s) && t < |s.threads| && s.threads[t].Waiting? && Step(s, Turn(t)).threads[t] == Outside
  }

  /** With a permit, or because its semaphore is gone: the slot is free, or holds a later one. */
  predicate PermitOrGone(s: State, t: nat)
    requires Returns(s, t)
  {
    var s' := Step(s, Turn(t));
    var i := s.threads[t].slot;
    || (s'.books[i].taken == s.books[i].taken + 1 && s'.table.slots[i].count == s.table.slots[i].count - 1 >= 0)
    || (s' == s.(threads := s.threads[t := Outside])
      && (!s.table.slots[i].initialized || s.books[i].epoch > s.threads[t].epoch))
  }

  /** A wait that has begun is refused only if its semaphore has been deleted since. */
  lemma RefusedOnlyWhenGone(threads: nat, events: seq<Event>, t: nat)
    requires Returns(Run(Initial(threads), events), t)
    ensures PermitOrGone(Run(Initial(threads), events), t)
  {
    hide Run, Inv, Returns, PermitOrGone;
    RunKeeps(Initial(threads), events);
    TurnEnds(Run(Initial(threads), events), t);
  }

  lemma TurnEnds(s: State, t: nat)
    requires Inv(s) && Returns(s, t)
    ensures PermitOrGone(s, t)
  {
    var i := s.threads[t].slot;
    assert SlotOk(s.table.slots[i], s.books[i]) && ThreadOk(s.threads[t], s.table.slots[i], s.books[i]);
    assert s.table.slots[i := s.table.slots[i]] == s.table.slots && s.books[i := s.books[i]] == s.books;
    hide GenerationAt, WakesOk, TableOk;
  }

  /** An awake thread's turn: it gives up on a semaphore that is gone, goes back to sleep on one without a
      permit, and else takes a permit and returns. */
  lemma TurnDecides(s: State, t: nat)
    requires Shaped(s) && t < |s.threads| && s.threads[t].Waiting? && !s.threads[t].asleep
    ensures var s', thread := Step(s, Turn(t)), s.threads[t]; var i := thread.slot; var slot := s.table.slots[i];
            if !slot.initialized || slot.generation != thread.generation then
              s' == s.(threads := s.threads[t := Outside])
            else if slot.count <= 0 then s' == s.(threads := s.threads[t := thread.(asleep := true)])
            else
              && s'.table.slots == s.table.slots[i := slot.(count := slot.count - 1)]
              && s'.threads == s.threads[t := Outside] && s'.books[i].taken == s.books[i].taken + 1
  {
    var i := s.threads[t].slot;
    assert s.table.slots[i := s.table.slots[i]] == s.table.slots && s.books[i := s.books[i]] == s.books;
    hide TableOk;
  }

  /** How a wait begins: a stale handle and a poll with no permit to take change nothing, a permit is
      taken at once, and otherwise the thread sleeps on the semaphore it found. */
  lemma WaitBegins(s: State, t: nat, handle: nat, poll: bool)
    requires Shaped(s) && t < |s.threads| && s.threads[t] == Outside
    ensures var s' := Step(s, Wait(t, handle, poll)); var found := Acquired(s.table.slots, handle);
            if found.None? then s' == s
            else
              var i := found.value; var slot := s.table.slots[i];
              if slot.count > 0 then
                && s'.table.slots == s.table.slots[i := slot.(count := slot.count - 1)] && s'.threads == s.threads
                && s'.books[i].taken == s.books[i].taken + 1
              else if poll then s' == s
              else
                && s'.threads == s.threads[t := Waiting(i, slot.generation, s.books[i].epoch, true)]
                && s'.table == s.table && s'.books == s.books
  {
    var found := Acquired(s.table.slots, handle);
    if found.Some? {
      var i := found.value;
      assert s.table.slots[i := s.table.slots[i]] == s.table.slots && s.books[i := s.books[i]] == s.books;
    }
    hide TableOk;
  }

  /** No wake-up is lost: if there are permits while a thread sleeps, another is on its way. */
  lemma SomeoneIsAwake(threads: nat, events: seq<Event>, i: nat)
    requires i < CAPACITY
    requires var s := Run(Initial(threads), events); Inv(s) && SomeSleeper(s.threads, i) && s.table.slots[i].count > 0
    ensures var s := Run(Initial(threads), events);
            exists t :: 0 <= t < |s.threads| && Looks(s.threads[t], i, s.table.slots[i].generation) == 1
  {
    var s := Run(Initial(threads), events);
    hide Run;
    assert WakesOk(s.threads, i, s.table.slots[i]);
    AwakeWitness(s.threads, i, s.table.slots[i].generation);
  }

  lemma {:induction false} AwakeWitness(threads: seq<Thread>, i: nat, generation: nat)
    ensures Awake(threads, i, generation) > 0 ==>
            exists t :: 0 <= t < |threads| && Looks(threads[t], i, generation) == 1
    decreases |threads|
  {
    if threads != [] {
      AwakeWitness(threads[..|threads| - 1], i, generation);
    }
  }
}
