/** Guest FILE handles (native/src/compat_runtime.c): 1,024 slots handed out round-robin, each
    slot's handle rotating through three generations, so that a closed handle stays
    rejected for a long time. */
module FileTable {
  const CAPACITY: nat := 1024
  const STRIDE: nat := 16
  const GENERATION_STRIDE: nat := 16384
  const GENERATIONS: nat := 3
  const BASE: nat := 0x7f03_0100
  const STDIN: nat := 0x7f03_0000
  const STDOUT: nat := 0x7f03_0010
  const STDERR: nat := 0x7f03_0020

  /** A slot: the last handle issued for it, and the host file it stands for (0 for none). */
  datatype Entry = Entry(handle: nat, file: nat)
  datatype Table = Table(entries: seq<Entry>, next: nat)
  datatype Host = Standard(handle: nat) | Opened(file: nat) | NoFile

  function HandleFor(index: nat, generation: nat): nat {
    BASE + generation * GENERATION_STRIDE + index * STRIDE
  }

  /** The generation after the one a slot's last handle belongs to. */
  function NextGeneration(e: Entry): (g: nat)
    requires e.handle == 0 || e.handle >= BASE
    ensures g < GENERATIONS
  {
    if e.handle == 0 then 0 else ((e.handle - BASE) / GENERATION_STRIDE + 1) % GENERATIONS
  }

  ghost predicate HandleOk(index: nat, e: Entry)
  {
    && (e.handle == 0 || exists g: nat :: g < GENERATIONS && e.handle == HandleFor(index, g))
    && (e.file != 0 ==> e.handle != 0)
  }

  ghost predicate Valid(t: Table)
  {
    && |t.entries| == CAPACITY && t.next < CAPACITY
    && forall i :: 0 <= i < CAPACITY ==> HandleOk(i, t.entries[i])
  }

  // ---------------------------------------------------------------- the operations

  /** The slot a handle belongs to, if it is a multiple of the stride. */
  function SlotOf(handle: nat): nat
    requires handle >= BASE
  {
    (handle - BASE) % GENERATION_STRIDE / STRIDE
  }

  predicate OnSlot(handle: nat)
    requires handle >= BASE
  {
    (handle - BASE) % GENERATION_STRIDE % STRIDE == 0
  }

  /** What a handle means right now. */
  function Lookup(entries: seq<Entry>, handle: nat): Host
    requires |entries| == CAPACITY
  {
    if handle == STDIN || handle == STDOUT || handle == STDERR then Standard(handle)
    else if handle < BASE then NoFile
    else if !OnSlot(handle) then NoFile
    else
      var index := SlotOf(handle);
      if index < CAPACITY && entries[index].file != 0
        && entries[index].handle == handle then Opened(entries[index].file)
      else NoFile
  }

  function Successor(i: nat): (j: nat)
    requires i < CAPACITY
    ensures j < CAPACITY
  {
    if i + 1 == CAPACITY then 0 else i + 1
  }

  /** The first free slot among the `steps` slots from `from` on, or CAPACITY. */
  function FirstFree(entries: seq<Entry>, from: nat, steps: nat): (index: nat)
    requires |entries| == CAPACITY && from < CAPACITY
    ensures index <= CAPACITY && (index < CAPACITY ==> entries[index].file == 0)
    decreases steps
  {
    if steps == 0 then CAPACITY
    else if entries[from].file == 0 then from
    else FirstFree(entries, Successor(from), steps - 1)
  }

  function Issue(t: Table, index: nat, file: nat): Table
    requires Valid(t) && index < CAPACITY
  {
    t.(entries := t.entries[index := Entry(HandleFor(index, NextGeneration(t.entries[index])), file)],
       next := Successor(index))
  }

  datatype Event = Open(file: nat) | Close(handle: nat)

  /** The handle an event issues, 0 if none. */
  function Issued(t: Table, e: Event): nat
    requires Valid(t)
  {
    match e
    case Open(file) =>
      var index := FirstFree(t.entries, t.next, |t.entries|);
      if file == 0 || index == CAPACITY then 0 else HandleFor(index, NextGeneration(t.entries[index]))
    case Close(_) => 0
  }

  function Closed(t: Table, handle: nat): Table
    requires |t.entries| == CAPACITY && Lookup(t.entries, handle).Opened?
  {
    var index := SlotOf(handle);
    t.(entries := t.entries[index := t.entries[index].(file := 0)])
  }

  lemma IssueValid(t: Table, index: nat, file: nat)
    requires Valid(t) && index < CAPACITY
    ensures Valid(Issue(t, index, file))
  {
    var t' := Issue(t, index, file);
    assert t'.entries[index].handle == HandleFor(index, NextGeneration(t.entries[index]));
    assert forall i :: 0 <= i < CAPACITY && i != index ==> t'.entries[i] == t.entries[i];
  }

  lemma ClosedValid(t: Table, handle: nat)
    requires Valid(t) && Lookup(t.entries, handle).Opened?
    ensures Valid(Closed(t, handle))
  {
    var t' := Closed(t, handle);
    forall i | 0 <= i < CAPACITY ensures HandleOk(i, t'.entries[i]) {
      assert HandleOk(i, t.entries[i]);
    }
  }

  function Step(t: Table, e: Event): (t': Table)
    requires Valid(t)
    ensures Valid(t')
  {
    match e
    case Open(file) =>
      var index := FirstFree(t.entries, t.next, |t.entries|);
      if file == 0 || index == CAPACITY then t
      else
        IssueValid(t, index, file);
        Issue(t, index, file)
    case Close(handle) =>
      if Lookup(t.entries, handle).Opened? then
        ClosedValid(t, handle);
        Closed(t, handle)
      else t
  }

  // ---------------------------------------------------------------- handles and slots

  lemma HandleParts(index: nat, generation: nat)
    requires index < CAPACITY && generation < GENERATIONS
    ensures var handle := HandleFor(index, generation);
            SlotOf(handle) == index && OnSlot(handle) && (handle - BASE) / GENERATION_STRIDE == generation
  {
  }

  /** A slot's next handle is the next generation of that slot, and no other slot's. */
  lemma IssuedHandle(index: nat, e: Entry, generation: nat)
    requires index < CAPACITY && generation < GENERATIONS && e.handle == HandleFor(index, generation)
    ensures NextGeneration(e) == (generation + 1) % GENERATIONS
  {
    HandleParts(index, generation);
  }

  // ---------------------------------------------------------------- counting free slots

  /** `from` moved on by `d` slots around the table. */
  function Around(from: nat, d: nat): (to: nat)
    requires from < CAPACITY && d <= CAPACITY
    ensures to < CAPACITY
  {
    if from + d < CAPACITY then from + d else from + d - CAPACITY
  }

  /** How many slots lie ahead of the cursor before it reaches slot `to`. */
  function Distance(from: nat, to: nat): (d: nat)
    requires from < CAPACITY && to < CAPACITY
    ensures d < CAPACITY && Around(from, d) == to
  {
    if to >= from then to - from else to + CAPACITY - from
  }

  /** Free slots among the `d` slots from `from` on. */
  function FreeAhead(entries: seq<Entry>, from: nat, d: nat): (n: nat)
    requires |entries| == CAPACITY && from < CAPACITY
    ensures n <= d
    decreases d
  {
    if d == 0 then 0 else (if entries[from].file == 0 then 1 else 0) + FreeAhead(entries, Successor(from), d - 1)
  }

  /** Open files: the slots that are not free. */
  function Active(entries: seq<Entry>): nat
    requires |entries| == CAPACITY
  {
    |entries| - FreeAhead(entries, 0, |entries|)
  }

  lemma {:induction false} FreeSplits(entries: seq<Entry>, from: nat, d: nat, more: nat)
    requires |entries| == CAPACITY && from < CAPACITY && d <= CAPACITY
    ensures FreeAhead(entries, from, d + more) == FreeAhead(entries, from, d) +
            FreeAhead(entries, Around(from, d), more)
    decreases d
  {
    if d != 0 {
      AroundStep(from, d);
      FreeSplits(entries, Successor(from), d - 1, more);
    }
  }

  lemma AroundStep(from: nat, d: nat)
    requires from < CAPACITY && 0 < d <= CAPACITY
    ensures Around(Successor(from), d - 1) == Around(from, d)
  {
  }

  /** A whole turn counts every slot, wherever it starts. */
  lemma WholeTurn(entries: seq<Entry>, from: nat)
    requires |entries| == CAPACITY && from < CAPACITY
    ensures FreeAhead(entries, from, |entries|) == FreeAhead(entries, 0, |entries|)
  {
    var rest := |entries| - from;
    FreeSplits(entries, 0, from, rest);
    FreeSplits(entries, from, rest, from);
    assert Around(0, from) == from && Around(from, rest) == 0;
  }

  /** Changing a slot that is not passed does not change the count. */
  lemma {:induction false} FreeElsewhere(entries: seq<Entry>, other: seq<Entry>, index: nat, from: nat, d: nat)
    requires |entries| == |other| == CAPACITY && from < CAPACITY && index < CAPACITY && d <= Distance(from, index)
    requires forall i :: 0 <= i < CAPACITY && i != index ==> other[i].file == entries[i].file
    ensures FreeAhead(other, from, d) == FreeAhead(entries, from, d)
    decreases d
  {
    if d != 0 {
      FreeElsewhere(entries, other, index, Successor(from), d - 1);
    }
  }

  /** Closing a file never makes a stretch less free. */
  lemma {:induction false} FreeGrows(entries: seq<Entry>, other: seq<Entry>, from: nat, d: nat)
    requires |entries| == |other| == CAPACITY && from < CAPACITY
    requires forall i :: 0 <= i < CAPACITY && entries[i].file == 0 ==> other[i].file == 0
    ensures FreeAhead(entries, from, d) <= FreeAhead(other, from, d)
    decreases d
  {
    if d != 0 {
      FreeGrows(entries, other, Successor(from), d - 1);
    }
  }

  /** The slot the search finds: everything it passed over was taken. */
  lemma {:induction false} SearchPasses(entries: seq<Entry>, from: nat, steps: nat)
    requires |entries| == CAPACITY && from < CAPACITY && steps <= CAPACITY
    requires FirstFree(entries, from, steps) < CAPACITY
    ensures var d := Distance(from, FirstFree(entries, from, steps));
            d < steps && FreeAhead(entries, from, d) == 0
    decreases steps
  {
    if entries[from].file != 0 {
      SearchPasses(entries, Successor(from), steps - 1);
    }
  }

  lemma {:induction false} SearchFails(entries: seq<Entry>, from: nat, steps: nat)
    requires |entries| == CAPACITY && from < CAPACITY
    ensures FirstFree(entries, from, steps) == CAPACITY <==> FreeAhead(entries, from, steps) == 0
    decreases steps
  {
    if steps != 0 && entries[from].file != 0 {
      SearchFails(entries, Successor(from), steps - 1);
    }
  }

  /** From just past a taken slot, a turn that stops short of it meets every free slot. */
  lemma OthersFree(entries: seq<Entry>, i: nat)
    requires |entries| == CAPACITY && i < CAPACITY && entries[i].file != 0
    ensures FreeAhead(entries, Successor(i), Distance(Successor(i), i)) == CAPACITY - Active(entries)
  {
    TurnEndsAt(entries, i);
  }

  /** The free slots ahead of slot `i` when the cursor is at `next`. */
  function AheadOf(entries: seq<Entry>, next: nat, i: nat): nat
    requires |entries| == CAPACITY && next < CAPACITY && i < CAPACITY
  {
    FreeAhead(entries, next, Distance(next, i))
  }

  /** Taking the first free slot uses up at most one free slot ahead of `i`, and none of those
      ahead of `i` when it is `i` itself that is taken. */
  lemma TakingUsesOne(entries: seq<Entry>, next: nat, taken: seq<Entry>, index: nat, i: nat)
    requires |entries| == |taken| == CAPACITY && next < CAPACITY && i < CAPACITY && index < CAPACITY
    requires index == FirstFree(entries, next, |entries|) && taken[index].file != 0
    requires forall k :: 0 <= k < CAPACITY && k != index ==> taken[k].file == entries[k].file
    ensures index == i ==>
            AheadOf(entries, next, i) == 0 && AheadOf(taken, Successor(index), i) == CAPACITY - Active(taken)
    ensures index != i ==> AheadOf(entries, next, i) <= AheadOf(taken, Successor(index), i) + 1
  {
    hide Active, FreeAhead, Successor;
    SearchPasses(entries, next, |entries|);
    hide FirstFree, Distance;
    if index == i {
      OthersFree(taken, i);
    } else if Distance(next, index) < Distance(next, i) {
      OneUsed(entries, next, taken, index, i);
    } else {
      NoneUsed(entries, next, taken, index, i);
    }
  }

  /** The slot taken lies ahead of `i`. */
  lemma OneUsed(entries: seq<Entry>, next: nat, taken: seq<Entry>, index: nat, i: nat)
    requires |entries| == |taken| == CAPACITY && next < CAPACITY && i < CAPACITY && index < CAPACITY
    requires Distance(next, index) < Distance(next, i) && FreeAhead(entries, next, Distance(next, index)) == 0
    requires forall k :: 0 <= k < CAPACITY && k != index ==> taken[k].file == entries[k].file
    ensures AheadOf(entries, next, i) <= AheadOf(taken, Successor(index), i) + 1
  {
    var o, d := Distance(next, index), Distance(next, i);
    FreeSplits(entries, next, o, d - o);
    DistanceLeft(next, index, i);
    FreeElsewhere(entries, taken, index, Successor(index), d - o - 1);
    hide Distance, Successor;
  }

  /** The search passed `i` on its way. */
  lemma NoneUsed(entries: seq<Entry>, next: nat, taken: seq<Entry>, index: nat, i: nat)
    requires |entries| == CAPACITY && next < CAPACITY && i < CAPACITY && index < CAPACITY
    requires Distance(next, i) <= Distance(next, index) && FreeAhead(entries, next, Distance(next, index)) == 0
    ensures AheadOf(entries, next, i) == 0
  {
    FreeSplits(entries, next, Distance(next, i), Distance(next, index) - Distance(next, i));
    hide Distance, FreeAhead, Around;
  }

  lemma DistanceLeft(next: nat, index: nat, i: nat)
    requires next < CAPACITY && index < CAPACITY && i < CAPACITY && Distance(next, index) < Distance(next, i)
    ensures Distance(Successor(index), i) == Distance(next, i) - Distance(next, index) - 1
    ensures Distance(Successor(index), i) <= Distance(Successor(index), index)
  {
  }

  // ---------------------------------------------------------------- runs

  /** The table after a sequence of calls. */
  function Run(t: Table, events: seq<Event>): (t': Table)
    requires Valid(t)
    ensures Valid(t')
    decreases |events|
  {
    if events == [] then t else Run(Step(t, events[0]), events[1..])
  }

  /** How many calls of a run opened a file. */
  function Opens(t: Table, events: seq<Event>): nat
    requires Valid(t)
    decreases |events|
  {
    if events == [] then 0 else (if Issued(t, events[0]) != 0 then 1 else 0) + Opens(Step(t, events[0]), events[1..])
  }

  /** At most `peak` files are open at every point of the run. */
  ghost predicate PeakWithin(t: Table, events: seq<Event>, peak: nat)
    requires Valid(t)
    decreases |events|
  {
    Active(t.entries) <= peak && (events != [] ==> PeakWithin(Step(t, events[0]), events[1..], peak))
  }

  /** The last call of the run issues `handle`. */
  ghost predicate IssuesLast(t: Table, events: seq<Event>, handle: nat)
    requires Valid(t)
    decreases |events|
  {
    events != [] && if |events| == 1 then Issued(t, events[0]) == handle
      else IssuesLast(Step(t, events[0]), events[1..], handle)
  }

  /** No call of the run issues `handle`. */
  ghost predicate NeverIssues(t: Table, events: seq<Event>, handle: nat)
    requires Valid(t)
    decreases |events|
  {
    events != [] ==> Issued(t, events[0]) != handle && NeverIssues(Step(t, events[0]), events[1..], handle)
  }

  /** How many more times slot `i` must be reopened, after the next time, for `h` to come up. */
  function TurnsLeft(e: Entry, generation: nat): (n: nat)
    requires e.handle == 0 || e.handle >= BASE
    requires generation < GENERATIONS
    ensures n < GENERATIONS
  {
    (generation + GENERATIONS - NextGeneration(e)) % GENERATIONS
  }

  lemma EntryHandle(t: Table, i: nat)
    requires Valid(t) && i < CAPACITY
    ensures t.entries[i].handle == 0 || t.entries[i].handle >= BASE
  {
    assert HandleOk(i, t.entries[i]);
  }

  function Times(turns: nat, each: nat): nat {
    if turns == 0 then 0 else each + Times(turns - 1, each)
  }

  lemma TimesTwo(each: nat)
    ensures Times(2, each) == 2 * each
  {
    assert Times(0, each) == 0 && Times(1, each) == each;
  }

  lemma PeakNow(t: Table, events: seq<Event>, peak: nat)
    requires Valid(t) && PeakWithin(t, events, peak)
    ensures Active(t.entries) <= peak
  {
  }

  /** The opens a run must contain before it can issue handle `generation` of slot `i`: all
      turns but the last pass every slot that is free at its start. */
  function Needed(t: Table, i: nat, generation: nat, peak: nat): nat
    requires Valid(t) && i < CAPACITY && generation < GENERATIONS && peak <= CAPACITY
  {
    EntryHandle(t, i);
    Times(TurnsLeft(t.entries[i], generation), CAPACITY + 1 - peak) + 1 + AheadOf(t.entries, t.next, i)
  }

  lemma SameHandle(index: nat, g: nat, i: nat, generation: nat)
    requires index < CAPACITY && i < CAPACITY && g < GENERATIONS && generation < GENERATIONS
    ensures HandleFor(index, g) == HandleFor(i, generation) <==> index == i && g == generation
    ensures HandleFor(index, g) >= BASE
  {
    HandleParts(index, g);
    HandleParts(i, generation);
  }

  lemma OpenNeeds(t: Table, file: nat, i: nat, generation: nat, peak: nat)
    requires Valid(t) && i < CAPACITY && generation < GENERATIONS && peak <= CAPACITY
    requires file != 0 && FirstFree(t.entries, t.next, |t.entries|) < CAPACITY
    requires Active(Step(t, Open(file)).entries) <= peak
    ensures Issued(t, Open(file)) != 0
    ensures Issued(t, Open(file)) == HandleFor(i, generation) ==> Needed(t, i, generation, peak) == 1
    ensures Issued(t, Open(file)) != HandleFor(i, generation) ==>
              Needed(t, i, generation, peak) <= Needed(Step(t, Open(file)), i, generation, peak) + 1
  {
    var index := FirstFree(t.entries, t.next, |t.entries|);
    EntryHandle(t, i);
    EntryHandle(t, index);
    hide Valid, HandleFor, NextGeneration, TurnsLeft, Needed, Active, FirstFree;
    SameHandle(index, NextGeneration(t.entries[index]), i, generation);
    if index == i {
      OwnOpen(t, file, i, generation, peak);
    } else {
      OtherOpen(t, file, i, generation, peak);
    }
  }

  lemma OwnOpen(t: Table, file: nat, i: nat, generation: nat, peak: nat)
    requires Valid(t) && i < CAPACITY && generation < GENERATIONS && peak <= CAPACITY
    requires file != 0 && FirstFree(t.entries, t.next, |t.entries|) == i && Active(Step(t, Open(file)).entries) <= peak
    ensures t.entries[i].handle == 0 || t.entries[i].handle >= BASE
    ensures NextGeneration(t.entries[i]) == generation ==> Needed(t, i, generation, peak) == 1
    ensures NextGeneration(t.entries[i]) != generation ==>
              Needed(t, i, generation, peak) <= Needed(Step(t, Open(file)), i, generation, peak) + 1
  {
    var t' := Step(t, Open(file));
    TakingUsesOne(t.entries, t.next, t'.entries, i, i);
    EntryHandle(t, i);
    EntryHandle(t', i);
    hide Valid, HandleFor, NextGeneration, TurnsLeft, AheadOf, Active, FirstFree;
    TurnTaken(t.entries[i], t'.entries[i], i, generation, CAPACITY + 1 - peak);
  }

  lemma OtherOpen(t: Table, file: nat, i: nat, generation: nat, peak: nat)
    requires Valid(t) && i < CAPACITY && generation < GENERATIONS && peak <= CAPACITY && file != 0
    requires FirstFree(t.entries, t.next, |t.entries|) != i && FirstFree(t.entries, t.next, |t.entries|) < CAPACITY
    ensures Needed(t, i, generation, peak) <= Needed(Step(t, Open(file)), i, generation, peak) + 1
  {
    var index, t' := FirstFree(t.entries, t.next, |t.entries|), Step(t, Open(file));
    TakingUsesOne(t.entries, t.next, t'.entries, index, i);
    hide Valid, HandleFor, NextGeneration, TurnsLeft, AheadOf, Active, FirstFree;
    assert t'.entries[i] == t.entries[i];
  }

  /** One call uses up at most one of the opens that are needed. */
  lemma StepNeeds(t: Table, e: Event, i: nat, generation: nat, peak: nat)
    requires Valid(t) && i < CAPACITY && generation < GENERATIONS && peak <= CAPACITY
    requires Active(Step(t, e).entries) <= peak
    ensures Issued(t, e) == HandleFor(i, generation) ==> Needed(t, i, generation, peak) == 1
    ensures Issued(t, e) != HandleFor(i, generation) ==>
              Needed(t, i, generation, peak) <= Needed(Step(t, e), i, generation, peak) +
                (if Issued(t, e) != 0 then 1 else 0)
  {
    hide TurnsLeft;
    SameHandle(i, generation, i, generation);
    match e
    case Open(file) =>
      if file != 0 && FirstFree(t.entries, t.next, |t.entries|) < CAPACITY {
        OpenNeeds(t, file, i, generation, peak);
      }
    case Close(handle) =>
      var t' := Step(t, e);
      assert t'.entries[i].handle == t.entries[i].handle;
      SameTurns(t.entries[i], t'.entries[i], generation);
      FreeGrows(t.entries, t'.entries, t.next, Distance(t.next, i));
  }

  lemma SameTurns(before: Entry, after: Entry, generation: nat)
    requires before.handle == after.handle && (before.handle == 0 || before.handle >= BASE) && generation < GENERATIONS
    ensures TurnsLeft(before, generation) == TurnsLeft(after, generation)
  {
  }

  lemma TurnTaken(before: Entry, after: Entry, i: nat, generation: nat, each: nat)
    requires before.handle == 0 || before.handle >= BASE
    requires i < CAPACITY && generation < GENERATIONS && after.handle == HandleFor(i, NextGeneration(before))
    ensures NextGeneration(before) == generation <==> TurnsLeft(before, generation) == 0
    ensures NextGeneration(before) != generation ==> TurnsLeft(before, generation) == TurnsLeft(after, generation) + 1
    ensures NextGeneration(before) != generation ==>
            Times(TurnsLeft(before, generation), each) == Times(TurnsLeft(after, generation), each) + each
  {
    IssuedHandle(i, after, NextGeneration(before));
  }

  /** A handle just issued comes up again at the third reopening of its slot. */
  lemma FullTurns(e: Entry, i: nat, generation: nat)
    requires i < CAPACITY && generation < GENERATIONS && e.handle == HandleFor(i, generation)
    ensures TurnsLeft(e, generation) == GENERATIONS - 1
  {
    IssuedHandle(i, e, generation);
  }

  lemma {:induction false} OpensNeeded(t: Table, events: seq<Event>, i: nat, generation: nat, peak: nat)
    requires Valid(t) && i < CAPACITY && generation < GENERATIONS && peak <= CAPACITY
    requires PeakWithin(t, events, peak) && IssuesLast(t, events, HandleFor(i, generation))
    ensures Opens(t, events) >= Needed(t, i, generation, peak)
    decreases |events|
  {
    StepNeeds(t, events[0], i, generation, peak);
    if |events| > 1 {
      OpensNeeded(Step(t, events[0]), events[1..], i, generation, peak);
    }
  }

  /** Between two issues of one handle lie three reopenings of its slot, each after a turn past
      every slot free at its start. */
  lemma StaleHandleDistance(t: Table, file: nat, events: seq<Event>, peak: nat)
    requires Valid(t) && peak <= CAPACITY && Issued(t, Open(file)) != 0
    requires PeakWithin(Step(t, Open(file)), events, peak)
    requires IssuesLast(Step(t, Open(file)), events, Issued(t, Open(file)))
    ensures Opens(Step(t, Open(file)), events) >= GENERATIONS * (CAPACITY + 1 - peak)
  {
    hide Opens, PeakWithin, IssuesLast, Active;
    PeakNow(Step(t, Open(file)), events, peak);
    var i, t' := FirstFree(t.entries, t.next, |t.entries|), Step(t, Open(file));
    EntryHandle(t, i);
    var generation := NextGeneration(t.entries[i]);
    JustIssued(t, file, i, generation, peak);
    hide Valid, Step, Issued, Needed, FirstFree;
    OpensNeeded(t', events, i, generation, peak);
  }

  lemma JustIssued(t: Table, file: nat, i: nat, generation: nat, peak: nat)
    requires Valid(t) && i == FirstFree(t.entries, t.next, |t.entries|) < CAPACITY && file != 0 && peak <= CAPACITY
    requires t.entries[i].handle == 0 || t.entries[i].handle >= BASE
    requires generation == NextGeneration(t.entries[i]) && Active(Step(t, Open(file)).entries) <= peak
    ensures Issued(t, Open(file)) == HandleFor(i, generation)
    ensures Needed(Step(t, Open(file)), i, generation, peak) >= GENERATIONS * (CAPACITY + 1 - peak)
  {
    var t' := Step(t, Open(file));
    TableSizes(t');
    hide NextGeneration, AheadOf, Valid, HandleFor, FirstFree, Active, Step, Issued, Needed;
    JustTaken(t, file, i);
    FullTurnsNeeded(t', i, generation, peak);
  }

  lemma JustTaken(t: Table, file: nat, i: nat)
    requires Valid(t) && i == FirstFree(t.entries, t.next, |t.entries|) < CAPACITY && file != 0
    requires t.entries[i].handle == 0 || t.entries[i].handle >= BASE
    ensures var t' := Step(t, Open(file));
            && Issued(t, Open(file)) == HandleFor(i, NextGeneration(t.entries[i])) == t'.entries[i].handle
            && AheadOf(t'.entries, t'.next, i) == CAPACITY - Active(t'.entries)
  {
    TakingUsesOne(t.entries, t.next, Step(t, Open(file)).entries, i, i);
    hide NextGeneration, AheadOf, Valid, HandleFor, FirstFree, Active;
  }

  // ---------------------------------------------------------------- what handles mean over a run

  lemma LookupSlot(entries: seq<Entry>, i: nat, generation: nat)
    requires |entries| == CAPACITY && i < CAPACITY && generation < GENERATIONS
    ensures Lookup(entries, HandleFor(i, generation)) ==
            if entries[i].file != 0 && entries[i].handle == HandleFor(i, generation) then Opened(entries[i].file)
              else NoFile
  {
    HandleParts(i, generation);
  }

  /** A handle means its file from the moment it is issued, and no other handle's meaning changes. */
  lemma OpenGrants(t: Table, file: nat, other: nat)
    requires Valid(t) && Issued(t, Open(file)) != 0
    ensures Lookup(t.entries, Issued(t, Open(file))) == NoFile
    ensures Lookup(Step(t, Open(file)).entries, Issued(t, Open(file))) == Opened(file)
    ensures other != Issued(t, Open(file)) ==> Lookup(Step(t, Open(file)).entries, other) == Lookup(t.entries, other)
  {
    var i := FirstFree(t.entries, t.next, |t.entries|);
    EntryHandle(t, i);
    LookupSlot(t.entries, i, NextGeneration(t.entries[i]));
    LookupSlot(Step(t, Open(file)).entries, i, NextGeneration(t.entries[i]));
    hide FirstFree, Valid, SlotOf, OnSlot;
  }

  /** A handle that means nothing keeps meaning nothing until it is issued again. */
  lemma {:induction false} StaleStaysRejected(t: Table, events: seq<Event>, handle: nat)
    requires Valid(t) && Lookup(t.entries, handle) == NoFile && handle != 0
    requires NeverIssues(t, events, handle)
    ensures Lookup(Run(t, events).entries, handle) == NoFile
    decreases |events|
  {
    if events != [] {
      StaleStaysRejected(Step(t, events[0]), events[1..], handle);
    }
  }

  /** An open is granted exactly when there is a file and fewer than 1,024 are open. */
  lemma OpensUnlessFull(t: Table, file: nat)
    requires Valid(t)
    ensures Issued(t, Open(file)) != 0 <==> file != 0 && Active(t.entries) < 1024
    ensures Issued(t, Open(file)) == 0 ==> Step(t, Open(file)) == t
  {
    hide FirstFree, HandleFor, NextGeneration;
    var index := FirstFree(t.entries, t.next, |t.entries|);
    WholeTurn(t.entries, t.next);
    SearchFails(t.entries, t.next, |t.entries|);
    if index < CAPACITY {
      EntryHandle(t, index);
      SameHandle(index, NextGeneration(t.entries[index]), index, NextGeneration(t.entries[index]));
    }
    hide FreeAhead;
  }

  /** The handles: multiples of 16, above the three standard ones and below 0x7f04_0000, each of one slot
      and one generation. */
  lemma HandleValues(index: nat, generation: nat, other: nat, g: nat)
    requires index < CAPACITY && generation < GENERATIONS && other < CAPACITY && g < GENERATIONS
    ensures var h := HandleFor(index, generation);
            h % 16 == 0 && 0x7f03_0020 < h < 0x7f04_0000
              && (h == HandleFor(other, g) <==> index == other && generation == g)
  {
    SameHandle(index, generation, other, g);
  }

  /** What the handles should mean after a run from the empty table: each file opened belongs to the handle
      its open returned, until that handle is closed. */
  function Meanings(t: Table, m: map<nat, nat>, events: seq<Event>): map<nat, nat>
    requires Valid(t)
    decreases |events|
  {
    if events == [] then m
    else
      var m' := match events[0]
        case Open(file) => if Issued(t, Open(file)) != 0 then m[Issued(t, Open(file)) := file] else m
        case Close(handle) => m - {handle};
      Meanings(Step(t, events[0]), m', events[1..])
  }

  ghost predicate MeansLike(entries: seq<Entry>, m: map<nat, nat>)
    requires |entries| == CAPACITY
  {
    forall handle :: Lookup(entries, handle) == Meaning(m, handle)
  }

  function Meaning(m: map<nat, nat>, handle: nat): Host {
    if handle == 0x7f03_0000 || handle == 0x7f03_0010 || handle == 0x7f03_0020 then Standard(handle)
    else if handle in m then Opened(m[handle]) else NoFile
  }

  /** The table answers like that map: the three standard handles always, a handle that is open with its
      own file, and any other number not at all. */
  lemma {:induction false} LookupIsMap(t: Table, m: map<nat, nat>, events: seq<Event>)
    requires Valid(t) && MeansLike(t.entries, m)
    ensures MeansLike(Run(t, events).entries, Meanings(t, m, events))
    decreases |events|
  {
    hide Step, Lookup, Meaning, Issued, HandleOk;
    if events != [] {
      var e := events[0];
      var m' := match e
        case Open(file) => if Issued(t, Open(file)) != 0 then m[Issued(t, Open(file)) := file] else m
        case Close(handle) => m - {handle};
      forall handle ensures Lookup(Step(t, e).entries, handle) == Meaning(m', handle) {
        StepMeaning(t, m, e, handle);
      }
      LookupIsMap(Step(t, e), m', events[1..]);
    }
  }

  lemma MeaningsFromEmpty(events: seq<Event>)
    ensures MeansLike(Run(Empty(), events).entries, Meanings(Empty(), map[], events))
  {
    hide Run, Meanings;
    forall handle ensures Lookup(Empty().entries, handle) == Meaning(map[], handle) {
    }
    LookupIsMap(Empty(), map[], events);
  }

  lemma StepMeaning(t: Table, m: map<nat, nat>, e: Event, handle: nat)
    requires Valid(t) && MeansLike(t.entries, m)
    ensures e.Open? ==>
              Lookup(Step(t, e).entries, handle) ==
              Meaning(if Issued(t, e) != 0 then m[Issued(t, e) := e.file] else m, handle)
    ensures e.Close? ==> Lookup(Step(t, e).entries, handle) == Meaning(m - {e.handle}, handle)
  {
    assert Lookup(t.entries, handle) == Meaning(m, handle);
    match e
    case Open(file) =>
      OpensUnlessFull(t, file);
      hide Step;
      if Issued(t, e) != 0 {
        OpenGrants(t, file, handle);
        IssuedOrdinary(t, file);
      }
      hide Lookup, Issued, Valid;
    case Close(closed) =>
      assert Lookup(t.entries, closed) == Meaning(m, closed);
      CloseMeaning(t, closed, handle);
      hide Lookup, Step, Valid;
  }

  lemma IssuedOrdinary(t: Table, file: nat)
    requires Valid(t) && Issued(t, Open(file)) != 0
    ensures Issued(t, Open(file)) > 0x7f03_0020
  {
    var i := FirstFree(t.entries, t.next, |t.entries|);
    EntryHandle(t, i);
    hide FirstFree, NextGeneration, Valid;
  }

  lemma CloseMeaning(t: Table, closed: nat, handle: nat)
    requires Valid(t)
    ensures var after := Step(t, Close(closed)).entries;
            if handle == closed && Lookup(t.entries, closed).Opened? then Lookup(after, handle) == NoFile
            else Lookup(after, handle) == Lookup(t.entries, handle)
  {
    if Lookup(t.entries, closed).Opened? {
      CloseRevokes(t, closed, handle);
    }
    hide Lookup, Active;
  }

  /** Closing takes the handle's meaning away and no other's. */
  lemma CloseRevokes(t: Table, handle: nat, other: nat)
    requires Valid(t) && Lookup(t.entries, handle).Opened?
    ensures Lookup(Step(t, Close(handle)).entries, handle) == NoFile
    ensures other != handle ==> Lookup(Step(t, Close(handle)).entries, other) == Lookup(t.entries, other)
    ensures Active(Step(t, Close(handle)).entries) + 1 == Active(t.entries)
  {
    var index := SlotOf(handle);
    OneMoreFree(t.entries, Step(t, Close(handle)).entries, index);
    hide Active, SlotOf, OnSlot, Valid;
  }

  lemma OneMoreFree(entries: seq<Entry>, other: seq<Entry>, index: nat)
    requires |entries| == |other| == CAPACITY && index < CAPACITY
    requires entries[index].file != 0 && other[index].file == 0
    requires forall i :: 0 <= i < CAPACITY && i != index ==> other[i].file == entries[i].file
    ensures Active(other) + 1 == Active(entries)
  {
    var next := Successor(index);
    FreeElsewhere(entries, other, index, next, Distance(next, index));
    TurnEndsAt(entries, index);
    TurnEndsAt(other, index);
  }

  lemma TurnEndsAt(entries: seq<Entry>, index: nat)
    requires |entries| == CAPACITY && index < CAPACITY
    ensures AheadOf(entries, Successor(index), index) + (if entries[index].file == 0 then 1 else 0) ==
            CAPACITY - Active(entries)
  {
    var from := Successor(index);
    FreeSplits(entries, from, Distance(from, index), 1);
    WholeTurn(entries, from);
    assert Distance(from, index) + 1 == |entries|;
  }

  // ---------------------------------------------------------------- closed handles

  /** Slot `i` is free, and `generation` is that of the handle it was closed under. */
  ghost predicate ClosedUnder(t: Table, i: nat, generation: nat)
  {
    && Valid(t) && i < CAPACITY && generation < GENERATIONS
    && t.entries[i].file == 0 && t.entries[i].handle == HandleFor(i, generation)
  }

  /** The opens that bring a closed handle back at the earliest: the slots free ahead of its own,
      two whole turns past every free slot, and the open that issues it. */
  function Reopening(t: Table, i: nat, peak: nat): nat
    requires Valid(t) && i < CAPACITY && peak <= CAPACITY
  {
    AheadOf(t.entries, t.next, i) + (GENERATIONS - 1) * (CAPACITY + 1 - peak) + 1
  }

  lemma FullTurnsNeeded(t: Table, i: nat, generation: nat, peak: nat)
    requires Valid(t) && i < CAPACITY && generation < GENERATIONS && peak <= CAPACITY
    requires t.entries[i].handle == HandleFor(i, generation)
    ensures Needed(t, i, generation, peak) == Reopening(t, i, peak)
  {
    EntryHandle(t, i);
    hide TurnsLeft, NextGeneration, AheadOf, Valid, HandleFor;
    FullTurns(t.entries[i], i, generation);
    TimesTwo(CAPACITY + 1 - peak);
  }

  /** A closed handle is issued again only after that many opens, counted from the close. */
  lemma ClosedHandleDistance(t: Table, events: seq<Event>, i: nat, generation: nat, peak: nat)
    requires ClosedUnder(t, i, generation) && peak <= CAPACITY
    requires PeakWithin(t, events, peak) && IssuesLast(t, events, HandleFor(i, generation))
    ensures Opens(t, events) >= Reopening(t, i, peak)
  {
    FullTurnsNeeded(t, i, generation, peak);
    OpensNeeded(t, events, i, generation, peak);
  }

  lemma {:induction false} TooFewOpens(t: Table, events: seq<Event>, i: nat, generation: nat, peak: nat)
    requires Valid(t) && i < CAPACITY && generation < GENERATIONS && peak <= CAPACITY
    requires PeakWithin(t, events, peak) && Opens(t, events) < Needed(t, i, generation, peak)
    ensures NeverIssues(t, events, HandleFor(i, generation))
    decreases |events|
  {
    hide Needed, Valid, Issued, HandleFor;
    if events != [] {
      SameHandle(i, generation, i, generation);
      PeakNow(Step(t, events[0]), events[1..], peak);
      StepNeeds(t, events[0], i, generation, peak);
      TooFewOpens(Step(t, events[0]), events[1..], i, generation, peak);
    }
  }

  /** Until then it is rejected: no run with fewer opens gives it a meaning. */
  lemma ClosedStaysRejected(t: Table, events: seq<Event>, i: nat, generation: nat, peak: nat)
    requires ClosedUnder(t, i, generation) && peak <= CAPACITY
    requires PeakWithin(t, events, peak) && Opens(t, events) < Reopening(t, i, peak)
    ensures Lookup(Run(t, events).entries, HandleFor(i, generation)) == NoFile
  {
    FullTurnsNeeded(t, i, generation, peak);
    TooFewOpens(t, events, i, generation, peak);
    LookupSlot(t.entries, i, generation);
    SameHandle(i, generation, i, generation);
    hide Needed, Run, NeverIssues, Opens, PeakWithin;
    StaleStaysRejected(t, events, HandleFor(i, generation));
  }

  // ---------------------------------------------------------------- files opened and closed in turn

  /** No slot but `i` is taken. */
  ghost predicate OnlyAt(t: Table, i: nat)
  {
    Valid(t) && i < CAPACITY && forall j :: 0 <= j < CAPACITY && j != i ==> t.entries[j].file == 0
  }

  /** Opening a file and closing it again. */
  function OpenAndClose(t: Table): seq<Event>
    requires Valid(t)
  {
    [Open(1), Close(Issued(t, Open(1)))]
  }

  function AfterBoth(t: Table): (t': Table)
    requires Valid(t)
    ensures Valid(t')
  {
    Step(Step(t, Open(1)), Close(Issued(t, Open(1))))
  }

  function Repeated(t: Table, n: nat): seq<Event>
    requires Valid(t)
    decreases n
  {
    if n == 0 then [] else OpenAndClose(t) + Repeated(AfterBoth(t), n - 1)
  }

  function AfterRepeated(t: Table, n: nat): (t': Table)
    requires Valid(t)
    ensures Valid(t')
    decreases n
  {
    if n == 0 then t else AfterRepeated(AfterBoth(t), n - 1)
  }

  /** It moves on the slot that is found by one generation, and the cursor past that slot. */
  lemma BothMove(t: Table, i: nat)
    requires Valid(t) && i == FirstFree(t.entries, t.next, |t.entries|) < CAPACITY
    ensures t.entries[i].handle == 0 || t.entries[i].handle >= BASE
    ensures var h := HandleFor(i, NextGeneration(t.entries[i]));
            && Issued(t, Open(1)) == h
            && Step(t, Open(1)).entries == t.entries[i := Entry(h, 1)]
            && AfterBoth(t) == Table(t.entries[i := Entry(h, 0)], Successor(i))
  {
    EntryHandle(t, i);
    var g := NextGeneration(t.entries[i]);
    var u := Step(t, Open(1));
    assert u.entries[i] == Entry(HandleFor(i, g), 1);
    LookupSlot(u.entries, i, g);
    HandleParts(i, g);
    SameHandle(i, g, i, g);
    hide FirstFree, HandleFor, NextGeneration, Valid;
    assert AfterBoth(t).entries == t.entries[i := Entry(HandleFor(i, g), 0)];
  }

  /** In a table that is not full both calls succeed, and in the end as many files are open. */
  lemma BothSucceed(t: Table)
    requires Valid(t) && Active(t.entries) < CAPACITY
    ensures FirstFree(t.entries, t.next, |t.entries|) < CAPACITY && Issued(t, Open(1)) != 0
    ensures Active(Step(t, Open(1)).entries) == Active(t.entries) + 1
    ensures Active(AfterBoth(t).entries) == Active(t.entries)
  {
    hide FirstFree, Active, NextGeneration, HandleFor, HandleOk, Step, Issued, AfterBoth;
    SearchSucceeds(t.entries, t.next);
    var i := FirstFree(t.entries, t.next, |t.entries|);
    BothMove(t, i);
    var g, u := NextGeneration(t.entries[i]), Step(t, Open(1));
    SameHandle(i, g, i, g);
    assert u.entries[i] == Entry(HandleFor(i, g), 1);
    OneMoreFree(u.entries, t.entries, i);
    OneMoreFree(u.entries, AfterBoth(t).entries, i);
  }

  lemma SearchSucceeds(entries: seq<Entry>, next: nat)
    requires |entries| == CAPACITY && next < CAPACITY && Active(entries) < CAPACITY
    ensures FirstFree(entries, next, |entries|) < CAPACITY
  {
    WholeTurn(entries, next);
    SearchFails(entries, next, |entries|);
  }

  /** Repeated up to slot `i` it leaves alone every slot it does not come to. */
  lemma {:induction false} RepeatedMoves(t: Table, n: nat, i: nat, other: nat)
    requires OnlyAt(t, i) && n <= Distance(t.next, i) && other < CAPACITY && n <= Distance(t.next, other)
    ensures var t' := AfterRepeated(t, n);
            OnlyAt(t', i) && t'.next == Around(t.next, n) && t'.entries[other] == t.entries[other]
    decreases n
  {
    hide HandleOk, HandleFor, NextGeneration, AfterBoth, FirstFree, Issued, Step;
    if n != 0 {
      SearchEnds(t.entries, t.next, |t.entries|);
      BothMove(t, t.next);
      assert OnlyAt(AfterBoth(t), i);
      RepeatedMoves(AfterBoth(t), n - 1, i, other);
    }
  }

  /** A run with at most `peak` files open whose `n`-th and last open issues the handle. */
  ghost predicate Reissues(t: Table, events: seq<Event>, handle: nat, n: nat, peak: nat)
    requires Valid(t)
  {
    IssuesLast(t, events, handle) && Opens(t, events) == n && PeakWithin(t, events, peak)
  }

  lemma OneMore(t: Table, e: Event, rest: seq<Event>, handle: nat, n: nat, peak: nat)
    requires Valid(t) && Active(t.entries) <= peak && Reissues(Step(t, e), rest, handle, n, peak)
    ensures Reissues(t, [e] + rest, handle, n + (if Issued(t, e) != 0 then 1 else 0), peak)
  {
    hide Active, Step, Issued;
    assert ([e] + rest)[1..] == rest;
  }

  lemma BothReissue(t: Table, rest: seq<Event>, handle: nat, n: nat, peak: nat)
    requires Valid(t) && Active(t.entries) < peak <= CAPACITY && Reissues(AfterBoth(t), rest, handle, n, peak)
    ensures Reissues(t, OpenAndClose(t) + rest, handle, n + 1, peak)
  {
    hide Active, Lookup, FirstFree, Valid, Reissues;
    BothSucceed(t);
    var open, close := Open(1), Close(Issued(t, Open(1)));
    assert Issued(Step(t, open), close) == 0;
    hide Step, Issued;
    OneMore(Step(t, open), close, rest, handle, n, peak);
    OneMore(t, open, [close] + rest, handle, n, peak);
    assert [open, close] + rest == [open] + ([close] + rest);
  }

  lemma {:induction false} RepeatedReissue(t: Table, n: nat, rest: seq<Event>, handle: nat, k: nat, peak: nat)
    requires Valid(t) && Active(t.entries) < peak <= CAPACITY
    requires Reissues(AfterRepeated(t, n), rest, handle, k, peak)
    ensures Reissues(t, Repeated(t, n) + rest, handle, n + k, peak)
    decreases n
  {
    hide Valid, Active, Reissues, OpenAndClose, AfterBoth;
    if n == 0 {
      assert [] + rest == rest;
    } else {
      BothSucceed(t);
      RepeatedReissue(AfterBoth(t), n - 1, rest, handle, k, peak);
      BothReissue(t, Repeated(AfterBoth(t), n - 1) + rest, handle, n - 1 + k, peak);
      assert OpenAndClose(t) + (Repeated(AfterBoth(t), n - 1) + rest) == Repeated(t, n) + rest;
    }
  }

  /** Slot `i` is found next, and no other slot is taken than the one before it, if that is held. */
  ghost predicate Reached(t: Table, i: nat, generation: nat, held: nat)
  {
    && ClosedUnder(t, i, generation) && OnlyAt(t, held)
    && FirstFree(t.entries, t.next, |t.entries|) == i
    && (held == i || (t.entries[held].file != 0 && Successor(held) == i))
  }

  /** The rest of a turn of the cursor, from just past slot `i` to slot `held`. */
  function Rest(i: nat, held: nat): (n: nat)
    requires i < CAPACITY && held < CAPACITY
    ensures n < CAPACITY
  {
    Distance(Successor(i), held)
  }

  function AfterTurn(t: Table, i: nat, held: nat): (t': Table)
    requires Valid(t) && i < CAPACITY && held < CAPACITY
    ensures Valid(t')
  {
    AfterRepeated(AfterBoth(t), Rest(i, held))
  }

  lemma WhereReached(t: Table, i: nat, generation: nat, held: nat)
    requires ClosedUnder(t, i, generation) && OnlyAt(t, held) && t.next in {held, i}
    requires held == i || (t.entries[held].file != 0 && Successor(held) == i)
    ensures Reached(t, i, generation, held)
  {
    SearchEnds(t.entries, t.next, |t.entries|);
    SearchEnds(t.entries, Successor(t.next), |t.entries| - 1);
  }

  /** A turn of the cursor, every file but the one held closed again, moves slot `i` on by one
      generation. */
  lemma TurnMoves(t: Table, i: nat, generation: nat, held: nat)
    requires Reached(t, i, generation, held)
    ensures Reached(AfterTurn(t, i, held), i, NextTurn(generation), held)
  {
    BothMove(t, i);
    IssuedHandle(i, t.entries[i], generation);
    hide FirstFree, HandleFor, NextGeneration, AfterBoth, AfterRepeated;
    var u := AfterBoth(t);
    assert OnlyAt(u, held);
    RepeatedMoves(u, Rest(i, held), held, i);
    RepeatedMoves(u, Rest(i, held), held, held);
    WhereReached(AfterTurn(t, i, held), i, NextTurn(generation), held);
  }

  lemma TurnReissue(t: Table, i: nat, generation: nat, held: nat, rest: seq<Event>, handle: nat, n: nat, peak: nat)
      returns (events: seq<Event>)
    requires Reached(t, i, generation, held) && Active(t.entries) < peak <= CAPACITY
    requires Reissues(AfterTurn(t, i, held), rest, handle, n, peak)
    ensures Reissues(t, events, handle, 1 + Rest(i, held) + n, peak)
  {
    BothSucceed(t);
    hide AfterBoth, AfterRepeated, Reissues, Repeated, OpenAndClose, HandleFor, HandleOk, Active, Rest;
    events := Repeated(AfterBoth(t), Rest(i, held)) + rest;
    RepeatedReissue(AfterBoth(t), Rest(i, held), rest, handle, n, peak);
    BothReissue(t, events, handle, Rest(i, held) + n, peak);
    events := OpenAndClose(t) + events;
  }

  lemma LastReissue(t: Table, i: nat, generation: nat, held: nat, peak: nat)
    requires Reached(t, i, generation, held) && Active(t.entries) < peak <= CAPACITY
    ensures Reissues(t, [Open(1)], HandleFor(i, NextTurn(generation)), 1, peak)
  {
    hide OnlyAt, FirstFree, HandleFor, HandleOk, Active, Step, Issued;
    BothSucceed(t);
    NextIssues(t, i, generation, held);
    assert [Open(1)][1..] == [];
  }

  lemma NextIssues(t: Table, i: nat, generation: nat, held: nat)
    requires Reached(t, i, generation, held)
    ensures Issued(t, Open(1)) == HandleFor(i, NextTurn(generation))
  {
    hide HandleFor, NextGeneration, FirstFree, HandleOk, Issued, Step, AfterBoth;
    BothMove(t, i);
    IssuedHandle(i, t.entries[i], generation);
  }

  lemma RepeatedKeeps(t: Table, n: nat)
    requires Valid(t) && Active(t.entries) < CAPACITY
    ensures Active(AfterRepeated(t, n).entries) == Active(t.entries)
    decreases n
  {
    hide Valid, Active, AfterBoth;
    if n != 0 {
      BothSucceed(t);
      RepeatedKeeps(AfterBoth(t), n - 1);
    }
  }

  lemma TurnKeeps(t: Table, i: nat, generation: nat, held: nat)
    requires Reached(t, i, generation, held) && Active(t.entries) < CAPACITY
    ensures Active(AfterTurn(t, i, held).entries) == Active(t.entries)
  {
    BothSucceed(t);
    RepeatedKeeps(AfterBoth(t), Rest(i, held));
  }

  /** Two turns and the open that issues the handle again. */
  lemma TwoTurns(t: Table, i: nat, generation: nat, held: nat, peak: nat) returns (events: seq<Event>)
    requires Reached(t, i, generation, held) && Active(t.entries) < peak <= CAPACITY
    ensures Reissues(t, events, HandleFor(i, generation), 2 * (1 + Rest(i, held)) + 1, peak)
  {
    var g1, g2 := NextTurn(generation), NextTurn(NextTurn(generation));
    assert NextTurn(g2) == generation;
    hide HandleFor, NextTurn, Reissues, AfterTurn, Reached, Active, Rest;
    var t1 := AfterTurn(t, i, held);
    TurnMoves(t, i, generation, held);
    TurnKeeps(t, i, generation, held);
    TurnMoves(t1, i, g1, held);
    TurnKeeps(t1, i, g1, held);
    LastReissue(AfterTurn(t1, i, held), i, g2, held, peak);
    events := TurnReissue(t1, i, g1, held, [Open(1)], HandleFor(i, generation), 1, peak);
    events := TurnReissue(t, i, generation, held, events, HandleFor(i, generation), 1 + Rest(i, held) + 1, peak);
  }

  lemma NoneOpen(t: Table, i: nat)
    requires OnlyAt(t, i) && t.entries[i].file == 0
    ensures Active(t.entries) == 0
  {
    EmptyIsFree(t.entries, 0, |t.entries|);
  }

  /** In an otherwise empty table a run with one file open at a time brings the handle back that soon. */
  lemma EarliestReissue(t: Table, i: nat, generation: nat, peak: nat) returns (events: seq<Event>)
    requires ClosedUnder(t, i, generation) && OnlyAt(t, i) && 0 < peak <= CAPACITY
    ensures Reissues(t, events, HandleFor(i, generation), Distance(t.next, i) + 2 * CAPACITY + 1, peak)
  {
    var d := Distance(t.next, i);
    RepeatedMoves(t, d, i, i);
    NoneOpen(t, i);
    hide HandleFor, Reissues, AfterRepeated, HandleOk, Active;
    var u := AfterRepeated(t, d);
    NoneOpen(u, i);
    WhereReached(u, i, generation, i);
    assert Rest(i, i) == CAPACITY - 1;
    hide Rest, Reached;
    events := TwoTurns(u, i, generation, i, peak);
    RepeatedReissue(t, d, events, HandleFor(i, generation), 2 * CAPACITY + 1, peak);
    events := Repeated(t, d) + events;
  }

  /** Holding the slot before `i` open: each time the cursor comes to it, `i` is found instead. */
  lemma ReissuePastHeld(t: Table, i: nat, generation: nat, peak: nat) returns (events: seq<Event>)
    requires ClosedUnder(t, i, generation) && OnlyAt(t, i) && t.next == Successor(i) && 2 <= peak <= CAPACITY
    ensures Reissues(t, events, HandleFor(i, generation), GENERATIONS * CAPACITY - 2, peak)
  {
    var held, u := UpToHeld(t, i, generation);
    var v := HoldOpen(u, i, generation, held);
    hide HandleFor, Reissues, AfterRepeated, Active, Rest, Reached, Issued, Step, OnlyAt, ClosedUnder, Successor;
    events := TwoTurns(v, i, generation, held, peak);
    OneMore(u, Open(1), events, HandleFor(i, generation), 2 * CAPACITY - 1, peak);
    events := [Open(1)] + events;
    RepeatedReissue(t, CAPACITY - 2, events, HandleFor(i, generation), 2 * CAPACITY, peak);
    events := Repeated(t, CAPACITY - 2) + events;
  }

  lemma UpToHeld(t: Table, i: nat, generation: nat) returns (held: nat, u: Table)
    requires ClosedUnder(t, i, generation) && OnlyAt(t, i) && t.next == Successor(i)
    ensures u == AfterRepeated(t, CAPACITY - 2) && ClosedUnder(u, i, generation) && OnlyAt(u, i) && u.next == held
    ensures held < CAPACITY && Successor(held) == i && Rest(i, held) == CAPACITY - 2
    ensures Active(t.entries) == Active(u.entries) == 0
  {
    held := if i == 0 then CAPACITY - 1 else i - 1;
    u := AfterRepeated(t, CAPACITY - 2);
    hide HandleFor, AfterRepeated, HandleOk, Active;
    RepeatedMoves(t, CAPACITY - 2, held, i);
    RepeatedMoves(t, CAPACITY - 2, held, held);
    NoneOpen(t, i);
    NoneOpen(u, i);
  }

  lemma HoldOpen(t: Table, i: nat, generation: nat, held: nat) returns (t': Table)
    requires ClosedUnder(t, i, generation) && OnlyAt(t, i) && t.next == held < CAPACITY && Successor(held) == i
    ensures t' == Step(t, Open(1)) && Issued(t, Open(1)) != 0
    ensures Reached(t', i, generation, held) && Active(t'.entries) == 1
  {
    NoneOpen(t, i);
    BothSucceed(t);
    SearchEnds(t.entries, held, |t.entries|);
    BothMove(t, held);
    t' := Step(t, Open(1));
    WhereReached(t', i, generation, held);
  }

  lemma FreeAround(t: Table, i: nat)
    requires Valid(t) && i < CAPACITY && Active(t.entries) == 0
    ensures AheadOf(t.entries, t.next, i) == Distance(t.next, i)
  {
    var d := Distance(t.next, i);
    WholeTurn(t.entries, t.next);
    FreeSplits(t.entries, t.next, d, |t.entries| - d);
  }

  /** With every file closed first, which costs no open, what the empty table can do the table can. */
  lemma EmptyFirst(t: Table, k: nat, rest: seq<Event>, handle: nat, n: nat, peak: nat) returns (events: seq<Event>)
    requires Valid(t) && Valid(Emptied(t)) && k <= CAPACITY && Active(t.entries) <= peak
    requires forall j :: 0 <= j < k ==> t.entries[j].file == 0
    requires Reissues(Emptied(t), rest, handle, n, peak)
    ensures Reissues(t, events, handle, n, peak)
    decreases CAPACITY - k
  {
    hide Active, Reissues, HandleOk, HandleFor, Lookup;
    if k == CAPACITY {
      assert Emptied(t).entries == t.entries;
      events := rest;
    } else if t.entries[k].file == 0 {
      events := EmptyFirst(t, k + 1, rest, handle, n, peak);
    } else {
      var e := Close(t.entries[k].handle);
      ClosesOne(t, k);
      assert Emptied(Step(t, e)).entries == Emptied(t).entries;
      events := EmptyFirst(Step(t, e), k + 1, rest, handle, n, peak);
      OneMore(t, e, events, handle, n, peak);
      events := [e] + events;
    }
  }

  /** The table with every file closed. */
  function Emptied(t: Table): (t': Table)
    ensures |t'.entries| == |t.entries| && t'.next == t.next
  {
    t.(entries := seq(|t.entries|, k requires 0 <= k < |t.entries| => t.entries[k].(file := 0)))
  }

  lemma ClosesOne(t: Table, k: nat)
    requires Valid(t) && k < CAPACITY && t.entries[k].file != 0
    ensures var t' := Step(t, Close(t.entries[k].handle));
            && t' == t.(entries := t.entries[k := t.entries[k].(file := 0)])
            && Active(t'.entries) + 1 == Active(t.entries)
  {
    assert HandleOk(k, t.entries[k]);
    var g: nat :| g < GENERATIONS && t.entries[k].handle == HandleFor(k, g);
    LookupSlot(t.entries, k, g);
    HandleParts(k, g);
    hide Active;
    CloseRevokes(t, HandleFor(k, g), 0);
  }

  lemma WhenEmptied(t: Table, i: nat, generation: nat)
    requires ClosedUnder(t, i, generation)
    ensures ClosedUnder(Emptied(t), i, generation) && OnlyAt(Emptied(t), i)
  {
    forall j | 0 <= j < CAPACITY ensures HandleOk(j, Emptied(t).entries[j]) {
      assert HandleOk(j, t.entries[j]);
    }
  }

  // ---------------------------------------------------------------- the documented distance

  /** Every run within the peak takes the documented opens to issue the handle again. */
  ghost predicate TakesThreeTurns(t: Table, handle: nat, peak: nat)
    requires Valid(t)
  {
    forall events :: PeakWithin(t, events, peak) && IssuesLast(t, events, handle) ==>
      Opens(t, events) >= GENERATIONS * CAPACITY
  }

  /** The closed file was the last one opened, and one file is open at a time: a run cannot open
      another before it has closed the one that may still be open. */
  lemma {:induction false} LastOpenedWaits(t: Table, events: seq<Event>, i: nat, generation: nat)
    requires ClosedUnder(t, i, generation) && t.next == Successor(i)
    requires PeakWithin(t, events, 1) && IssuesLast(t, events, HandleFor(i, generation))
    ensures Opens(t, events) >= GENERATIONS * CAPACITY
    decreases |events|
  {
    hide HandleFor, HandleOk, Active, FirstFree, Lookup;
    SameHandle(i, generation, i, generation);
    if Active(t.entries) == 0 {
      FreeAround(t, i);
      ClosedHandleDistance(t, events, i, generation, 1);
    } else {
      PeakNow(t, events, 1);
      PeakNow(Step(t, events[0]), events[1..], 1);
      CloseFirst(t, events[0], i, generation);
      LastOpenedWaits(Step(t, events[0]), events[1..], i, generation);
    }
  }

  lemma CloseFirst(t: Table, e: Event, i: nat, generation: nat)
    requires ClosedUnder(t, i, generation) && Active(t.entries) == 1 && Active(Step(t, e).entries) <= 1
    ensures ClosedUnder(Step(t, e), i, generation) && Step(t, e).next == t.next && Issued(t, e) == 0
  {
    if e.Open? && Issued(t, e) != 0 {
      var k := FirstFree(t.entries, t.next, |t.entries|);
      hide Active, FirstFree;
      OneMoreFree(Step(t, e).entries, t.entries, k);
      assert false;
    }
  }

  /** In every other case some run takes fewer. */
  lemma SoonerReissue(t: Table, i: nat, generation: nat, peak: nat) returns (events: seq<Event>)
    requires ClosedUnder(t, i, generation) && Active(t.entries) <= peak && 0 < peak <= CAPACITY
    requires peak > 1 || t.next != Successor(i)
    ensures PeakWithin(t, events, peak) && IssuesLast(t, events, HandleFor(i, generation))
    ensures Opens(t, events) < GENERATIONS * CAPACITY
  {
    WhenEmptied(t, i, generation);
    hide HandleFor, OnlyAt, ClosedUnder, Active, Opens, PeakWithin, IssuesLast;
    if t.next == Successor(i) {
      events := ReissuePastHeld(Emptied(t), i, generation, peak);
    } else {
      events := EarliestReissue(Emptied(t), i, generation, peak);
    }
    events := EmptyFirst(t, 0, events, HandleFor(i, generation), Opens(Emptied(t), events), peak);
  }

  /** The 3,072 opens that the source's comment promises a closed handle hold exactly when no more
      than one file is ever open and the closed file was the last one opened. */
  lemma DocumentedDistance(t: Table, i: nat, generation: nat, peak: nat)
    requires ClosedUnder(t, i, generation) && Active(t.entries) <= peak && 0 < peak <= CAPACITY
    ensures TakesThreeTurns(t, HandleFor(i, generation), peak) <==> peak == 1 && t.next == Successor(i)
  {
    hide HandleFor, HandleOk, Opens, PeakWithin, IssuesLast, Active, Successor;
    if peak == 1 && t.next == Successor(i) {
      forall events | PeakWithin(t, events, 1) && IssuesLast(t, events, HandleFor(i, generation))
        ensures Opens(t, events) >= GENERATIONS * CAPACITY {
        LastOpenedWaits(t, events, i, generation);
      }
    } else {
      var sooner := SoonerReissue(t, i, generation, peak);
      assert PeakWithin(t, sooner, peak) && IssuesLast(t, sooner, HandleFor(i, generation));
    }
  }

  lemma {:induction false} RunRepeated(t: Table, n: nat, rest: seq<Event>)
    requires Valid(t)
    ensures Run(t, Repeated(t, n) + rest) == Run(AfterRepeated(t, n), rest)
    decreases n
  {
    hide Valid, Step, Issued;
    if n == 0 {
      assert [] + rest == rest;
    } else {
      var more := Repeated(AfterBoth(t), n - 1) + rest;
      RunRepeated(AfterBoth(t), n - 1, rest);
      assert Repeated(t, n) + rest == [Open(1)] + ([Close(Issued(t, Open(1)))] + more);
    }
  }

  function Empty(): (t: Table)
    ensures OnlyAt(t, 0) && t.next == 0 && t.entries[0] == Entry(0, 0)
  {
    Table(seq(CAPACITY, _ => Entry(0, 0)), 0)
  }

  lemma FirstOpen()
    ensures var t := Step(Empty(), Open(1));
            OnlyAt(t, 0) && t.next == 1 && t.entries[0] == Entry(HandleFor(0, 0), 1)
  {
    SearchEnds(Empty().entries, 0, CAPACITY);
  }

  lemma RunStep(t: Table, e: Event, rest: seq<Event>)
    requires Valid(t)
    ensures Run(t, [e] + rest) == Run(Step(t, e), rest) && Run(t, []) == t
  {
    hide Step;
    assert ([e] + rest)[1..] == rest;
  }

  /** A file is opened, 1,023 others one at a time, and then it is closed. */
  lemma ClosedMeanwhile() returns (before: seq<Event>)
    ensures var t := Run(Empty(), before); ClosedUnder(t, 0, 0) && OnlyAt(t, 0) && t.next == 0
  {
    var t := Step(Empty(), Open(1));
    FirstOpen();
    RepeatedMoves(t, CAPACITY - 1, 0, 0);
    hide HandleFor, Empty, AfterRepeated, Repeated, Run;
    var u, h := AfterRepeated(t, CAPACITY - 1), HandleFor(0, 0);
    before := [Open(1)] + (Repeated(t, CAPACITY - 1) + [Close(h)]);
    RunStep(Empty(), Open(1), Repeated(t, CAPACITY - 1) + [Close(h)]);
    RunRepeated(t, CAPACITY - 1, [Close(h)]);
    RunStep(u, Close(h), []);
    assert [Close(h)] + [] == [Close(h)];
    LookupSlot(u.entries, 0, 0);
    HandleParts(0, 0);
    hide Lookup;
  }

  /** After that 2,049 opens, one file at a time, bring its handle back: 3,072 from the issue, but
      not from the close. */
  lemma ReissuedAfter2049Opens() returns (before: seq<Event>, events: seq<Event>)
    ensures var t := Run(Empty(), before);
            ClosedUnder(t, 0, 0) && Reissues(t, events, HandleFor(0, 0), 2049, 1)
  {
    before := ClosedMeanwhile();
    var t := Run(Empty(), before);
    hide Run, ClosedUnder, OnlyAt, Reissues;
    events := EarliestReissue(t, 0, 0, 1);
  }

  // ---------------------------------------------------------------- how tight the distance is

  /** Every slot is taken, slot `i` by the given generation of its handle. */
  ghost predicate Held(t: Table, i: nat, generation: nat)
  {
    && Valid(t) && i < CAPACITY && generation < GENERATIONS
    && t.entries[i].handle == HandleFor(i, generation)
    && forall k :: 0 <= k < CAPACITY ==> t.entries[k].file != 0
  }

  function NextTurn(generation: nat): (g: nat)
    ensures g < GENERATIONS
  {
    (generation + 1) % GENERATIONS
  }

  lemma CycleClose(t: Table, i: nat, generation: nat)
    requires Held(t, i, generation)
    ensures var t1 := Step(t, Close(HandleFor(i, generation)));
            && t1.entries == t.entries[i := t.entries[i].(file := 0)]
            && FirstFree(t1.entries, t1.next, |t1.entries|) == i
  {
    var h, t1 := HandleFor(i, generation), Step(t, Close(HandleFor(i, generation)));
    LookupSlot(t.entries, i, generation);
    HandleParts(i, generation);
    hide Active, FreeAhead, Lookup;
    CloseRevokes(t, h, h);
    WholeTurn(t1.entries, t1.next);
    SearchFails(t1.entries, t1.next, |t1.entries|);
    assert Active(t1.entries) < CAPACITY;
    ActiveIs(t1.entries);
  }

  lemma ActiveIs(entries: seq<Entry>)
    requires |entries| == CAPACITY
    ensures Active(entries) == |entries| - FreeAhead(entries, 0, |entries|)
    ensures Active(entries) <= CAPACITY
  {
  }

  /** In a full table a close and an open come back to the same slot, one generation on. */
  lemma Cycle(t: Table, i: nat, generation: nat, file: nat)
    requires Held(t, i, generation) && file != 0
    ensures var t1 := Step(t, Close(HandleFor(i, generation)));
            && Issued(t1, Open(file)) == HandleFor(i, NextTurn(generation))
            && Held(Step(t1, Open(file)), i, NextTurn(generation))
  {
    CycleClose(t, i, generation);
    hide FirstFree, Lookup;
    var t1 := Step(t, Close(HandleFor(i, generation)));
    IssuedHandle(i, t1.entries[i], generation);
  }

  function CycleEvents(i: nat, generation: nat, file: nat): seq<Event> {
    [Close(HandleFor(i, generation)), Open(file)]
  }

  /** With every other slot taken, the distance is only three opens. */
  lemma FullTableReissuesAtOnce(t: Table, i: nat, generation: nat, file: nat)
    requires Held(t, i, generation) && file != 0
    ensures var events := CycleEvents(i, generation, file) + CycleEvents(i, NextTurn(generation), file) +
                          CycleEvents(i, NextTurn(NextTurn(generation)), file);
            IssuesLast(t, events, HandleFor(i, generation)) && Opens(t, events) == GENERATIONS
  {
    var g1, h := NextTurn(generation), HandleFor(i, generation);
    var g2 := NextTurn(g1);
    assert NextTurn(g2) == generation;
    hide HandleFor, Held, NextTurn, Valid, Step, Issued;
    var t1 := CycleThen(t, i, generation, file, CycleEvents(i, g1, file) + CycleEvents(i, g2, file), h);
    var t2 := CycleThen(t1, i, g1, file, CycleEvents(i, g2, file), h);
    LastCycle(t2, i, g2, file);
    assert CycleEvents(i, generation, file) + (CycleEvents(i, g1, file) + CycleEvents(i, g2, file)) ==
           CycleEvents(i, generation, file) + CycleEvents(i, g1, file) + CycleEvents(i, g2, file);
  }

  lemma CycleThen(t: Table, i: nat, generation: nat, file: nat, rest: seq<Event>, handle: nat) returns (t2: Table)
    requires Held(t, i, generation) && file != 0 && rest != []
    ensures Held(t2, i, NextTurn(generation))
    ensures IssuesLast(t2, rest, handle) ==> IssuesLast(t, CycleEvents(i, generation, file) + rest, handle)
    ensures Opens(t, CycleEvents(i, generation, file) + rest) == 1 + Opens(t2, rest)
  {
    Cycle(t, i, generation, file);
    t2 := Step(Step(t, Close(HandleFor(i, generation))), Open(file));
    TwoCalls(t, Close(HandleFor(i, generation)), Open(file), rest, handle);
  }

  lemma LastCycle(t: Table, i: nat, generation: nat, file: nat)
    requires Held(t, i, generation) && file != 0
    ensures IssuesLast(t, CycleEvents(i, generation, file), HandleFor(i, NextTurn(generation)))
    ensures Opens(t, CycleEvents(i, generation, file)) == 1
  {
    Cycle(t, i, generation, file);
    LastTwoCalls(t, Close(HandleFor(i, generation)), Open(file), HandleFor(i, NextTurn(generation)));
  }

  lemma TwoCalls(t: Table, close: Event, open: Event, rest: seq<Event>, handle: nat)
    requires Valid(t) && rest != [] && close.Close? && Issued(Step(t, close), open) != 0
    ensures var events, t' := [close, open] + rest, Step(Step(t, close), open);
            && (IssuesLast(t', rest, handle) ==> IssuesLast(t, events, handle))
            && Opens(t, events) == 1 + Opens(t', rest)
  {
    var events := [close, open] + rest;
    assert events[1..] == [open] + rest && ([open] + rest)[1..] == rest;
  }

  lemma LastTwoCalls(t: Table, close: Event, open: Event, handle: nat)
    requires Valid(t) && close.Close? && Issued(Step(t, close), open) == handle != 0
    ensures IssuesLast(t, [close, open], handle) && Opens(t, [close, open]) == 1
  {
    assert [close, open][1..] == [open] && [open][1..] == [];
    assert Opens(Step(t, close), [open]) == 1;
  }

  // ---------------------------------------------------------------- the table itself

  class GuestFiles {
    const slots: array<Entry>
    var next: nat
    var activeCount: nat
    var exhaustions: nat

    function Contents(): Table
      reads this, slots
    {
      Table(slots[..], next)
    }

    ghost predicate WellFormed()
      reads this, slots
    {
      Valid(Contents()) && activeCount == Active(slots[..])
    }

    constructor ()
      ensures WellFormed() && fresh(slots) && activeCount == 0
      ensures forall i :: 0 <= i < CAPACITY ==> slots[i] == Entry(0, 0)
    {
      slots := new Entry[CAPACITY](_ => Entry(0, 0));
      next, activeCount, exhaustions := 0, 0, 0;
      new;
      EmptyIsFree(slots[..], 0, slots.Length);
    }

    /** Searches round-robin from the slot after the last one issued. */
    method FindFree() returns (index: nat)
      requires WellFormed()
      ensures index == FirstFree(slots[..], next, |slots[..]|)
    {
      hide HandleOk, Valid, Active, Around, FirstFree, Successor;
      assert slots.Length == CAPACITY && next < CAPACITY by { TableSizes(Contents()); }
      SearchFrom(slots[..], next, 0);
      var offset := 0;
      while offset < CAPACITY
        invariant offset <= CAPACITY
        invariant FirstFree(slots[..], Around(next, offset), CAPACITY - offset) ==
                  FirstFree(slots[..], next, |slots[..]|)
      {
        index := (next + offset) % CAPACITY;
        AroundIsMod(next, offset);
        SearchEnds(slots[..], index, CAPACITY - offset);
        if slots[index].file == 0 {
          return;
        }
        SearchFrom(slots[..], next, offset + 1);
        offset := offset + 1;
      }
      index := CAPACITY;
      SearchEnds(slots[..], Around(next, CAPACITY), 0);
    }

    /** Gives a host file a guest handle. A table with no free slot takes the file over all
        the same and closes it. */
    method OpenFile(file: nat) returns (handle: nat, closed: nat)
      requires WellFormed()
      modifies this, slots
      ensures WellFormed()
      ensures Contents() == Step(old(Contents()), Open(file)) && handle == Issued(old(Contents()), Open(file))
      ensures closed == if handle == 0 then file else 0
      ensures exhaustions == old(exhaustions) + (if file != 0 && handle == 0 then 1 else 0)
    {
      hide FirstFree, Active;
      ghost var t := Contents();
      if file == 0 {
        return 0, 0;
      }
      var index := FindFree();
      if index == CAPACITY {
        exhaustions := exhaustions + 1;
        return 0, file;
      }
      EntryHandle(t, index);
      var generation := 0;
      if slots[index].handle != 0 {
        generation := ((slots[index].handle - BASE) / GENERATION_STRIDE + 1) % GENERATIONS;
      }
      handle, closed := BASE + generation * GENERATION_STRIDE + index * STRIDE, 0;
      slots[index] := Entry(handle, file);
      OneMoreFree(slots[..], t.entries, index);
      AroundIsMod(index, 0);
      next := (index + 1) % CAPACITY;
      activeCount := activeCount + 1;
      IssueValid(t, index, file);
      assert Contents() == Issue(t, index, file);
    }

    /** fclose on a guest handle; answers whether the handle meant anything. */
    method CloseFile(handle: nat) returns (ok: bool)
      requires WellFormed()
      modifies this, slots
      ensures WellFormed() && exhaustions == old(exhaustions)
      ensures ok <==> Lookup(old(slots[..]), handle) != NoFile
      ensures Contents() == Step(old(Contents()), Close(handle))
    {
      var host := Lookup(slots[..], handle);
      if host == NoFile {
        return false;
      }
      if handle != STDIN && handle != STDOUT && handle != STDERR {
        ghost var t := Contents();
        var index := SlotOf(handle);
        slots[index] := slots[index].(file := 0);
        CloseRevokes(t, handle, handle);
        if activeCount == 0 {
          assert false;
        }
        activeCount := activeCount - 1;
      }
      ok := true;
    }
  }

  lemma TableSizes(t: Table)
    requires Valid(t)
    ensures |t.entries| == CAPACITY && t.next < CAPACITY
  {
  }

  lemma SearchEnds(entries: seq<Entry>, from: nat, steps: nat)
    requires |entries| == CAPACITY && from < CAPACITY
    ensures steps == 0 ==> FirstFree(entries, from, steps) == CAPACITY
    ensures steps > 0 && entries[from].file == 0 ==> FirstFree(entries, from, steps) == from
  {
  }

  lemma AroundIsMod(from: nat, d: nat)
    requires from < CAPACITY && d < CAPACITY
    ensures Around(from, d) == (from + d) % CAPACITY && Successor(from) == (from + 1) % CAPACITY
  {
  }

  /** The search restarted one slot further on. */
  lemma SearchFrom(entries: seq<Entry>, next: nat, offset: nat)
    requires |entries| == CAPACITY && next < CAPACITY && offset <= CAPACITY
    requires offset > 0 ==> entries[Around(next, offset - 1)].file != 0
    ensures offset == 0 ==> Around(next, 0) == next
    ensures offset > 0 ==>
              FirstFree(entries, Around(next, offset), CAPACITY - offset) ==
              FirstFree(entries, Around(next, offset - 1), CAPACITY - (offset - 1))
  {
  }

  lemma {:induction false} EmptyIsFree(entries: seq<Entry>, from: nat, d: nat)
    requires |entries| == CAPACITY && from < CAPACITY && forall i :: 0 <= i < CAPACITY ==> entries[i].file == 0
    ensures FreeAhead(entries, from, d) == d
    decreases d
  {
    if d != 0 {
      EmptyIsFree(entries, Successor(from), d - 1);
    }
  }
}
