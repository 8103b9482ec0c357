/** The guest heap of native/src/compat_runtime.c: one 32-bit region of raw words, a bump
    cursor, and 64 free lists threaded through the free blocks themselves. The ghost fields
    name the blocks and lists that the words encode. */
module Allocator {
  import opened HeapModel

  /** The doubling scan over bin bounds. */
  method BinForCapacity(capacity: nat) returns (index: nat)
    ensures index == BinFor(capacity)
  {
    if capacity <= 512 {
      index := capacity / 16;
      return if index != 0 then index - 1 else 0;
    }
    index := 32;
    var bound := 1024;
    while capacity > bound && index + 1 < BINS
      invariant index < BINS && bound > 0
      invariant BinFrom(capacity, bound, index) == BinFor(capacity)
      decreases BINS - index
    {
      bound := bound * 2;
      index := index + 1;
    }
  }

  // ---------------------------------------------------------------- what calls do to the blocks

  ghost predicate FreeEndsAt(blocks: Blocks, p: nat, a: nat)
  {
    p in blocks && blocks[p].kind.Free? && After(blocks, p) == a
  }

  /** The start of the maximal free stretch that releasing `a` creates. */
  ghost function LeftEdge(blocks: Blocks, a: nat): (lo: nat)
    ensures lo <= a
  {
    if p: nat :| FreeEndsAt(blocks, p, a) then p else a
  }

  ghost function RightEdge(blocks: Blocks, a: nat): (hi: nat)
    requires a in blocks
    ensures hi >= a + HEADER
  {
    var next := After(blocks, a);
    if next in blocks && blocks[next].kind.Free? then After(blocks, next) else next
  }

  function CutOut(blocks: Blocks, lo: nat, hi: nat): Blocks
  {
    map a | a in blocks && !(lo <= a < hi) :: blocks[a]
  }

  /** Everything in [lo, hi) becomes one block. */
  function Fused(blocks: Blocks, lo: nat, hi: nat, kind: Kind): Blocks
    requires lo + HEADER <= hi
  {
    CutOut(blocks, lo, hi)[lo := Block(hi - lo - HEADER, kind)]
  }

  /** The blocks once the stretch around `a` has become one free block, or has gone back to
      the bump region because it reaches the cursor. */
  ghost function Released(blocks: Blocks, a: nat, cursor: nat): Blocks
    requires a in blocks
  {
    var lo, hi := LeftEdge(blocks, a), RightEdge(blocks, a);
    if hi == cursor then CutOut(blocks, lo, hi) else Fused(blocks, lo, hi, Free)
  }

  /** Freeing a live block releases it and nothing else. */
  ghost predicate FreedBlock(before: Blocks, top: nat, after: Blocks, cursor: nat, pointer: nat)
  {
    && pointer >= HEADER && pointer - HEADER in before
    && after == Released(before, pointer - HEADER, top) && cursor == CursorAfter(before, pointer - HEADER, top)
  }

  /** The blocks once free block `a` has been taken for a request, cut down if what is left
      over can hold a block of its own. */
  function Taken(blocks: Blocks, a: nat, needed: nat, kind: Kind): Blocks
    requires a in blocks
  {
    if blocks[a].cap >= needed + HEADER + MIN_CAPACITY then
      blocks[a := Block(needed, kind)][a + HEADER + needed := Block(blocks[a].cap - needed - HEADER, Free)]
    else
      blocks[a := Block(blocks[a].cap, kind)]
  }

  ghost predicate Fits(blocks: Blocks, a: nat, needed: nat)
  {
    a in blocks && blocks[a].kind.Free? && blocks[a].cap >= needed
  }

  lemma LeftEdgeIs(blocks: Blocks, p: nat, a: nat)
    requires Apart(blocks) && FreeEndsAt(blocks, p, a)
    ensures LeftEdge(blocks, a) == p
  {
    var q := LeftEdge(blocks, a);
    assert FreeEndsAt(blocks, q, a);
  }

  /** Merging two neighbours is fusing the stretch they cover, whichever of them was free. */
  lemma FusePair(blocks: Blocks, before: Blocks, a: nat, next: nat)
    requires Apart(blocks) && a in blocks && next in blocks && After(blocks, a) == next
    requires before == blocks[a := Block(blocks[a].cap, Pending)]
             || before == blocks[next := Block(blocks[next].cap, Pending)]
    ensures Merged(before, a, next) == Fused(blocks, a, After(blocks, next), Pending)
  {
    hide CutOut, Apart;
    var whole := Block(After(blocks, next) - a - HEADER, Pending);
    PairCut(blocks, a, next);
    assert (before - {next})[a := whole] == (blocks - {a, next})[a := whole];
  }

  lemma PairCut(blocks: Blocks, a: nat, next: nat)
    requires Apart(blocks) && a in blocks && next in blocks && After(blocks, a) == next
    ensures CutOut(blocks, a, After(blocks, next)) == blocks - {a, next}
  {
    assert forall b :: b in blocks && a < b ==> After(blocks, a) <= b;
    assert forall b :: b in blocks && next < b ==> After(blocks, next) <= b;
    hide Apart;
  }

  lemma FuseTwice(blocks: Blocks, lo: nat, a: nat, hi: nat)
    requires a in blocks && lo <= a && lo + HEADER <= hi && a + HEADER <= hi
    requires forall b :: b in blocks && a < b < hi ==> b !in Fused(blocks, a, hi, Pending)
    ensures Fused(Fused(blocks, a, hi, Pending), lo, hi, Pending) == Fused(blocks, lo, hi, Pending)
  {
  }

  /** Absorbing what follows `a` changes neither what precedes it nor where the stretch starts. */
  lemma LeftEdgeKept(blocks: Blocks, cursor: nat, a: nat, hi: nat)
    requires Tiled(blocks, BASE, cursor) && a in blocks && blocks[a].kind.Pending? && a + HEADER <= hi
    requires Tiled(Fused(blocks, a, hi, Pending), BASE, cursor)
    ensures LeftEdge(Fused(blocks, a, hi, Pending), a) == LeftEdge(blocks, a)
  {
    var fused := Fused(blocks, a, hi, Pending);
    var p, q := LeftEdge(blocks, a), LeftEdge(fused, a);
    if FreeEndsAt(blocks, p, a) {
      assert FreeEndsAt(fused, p, a);
      LeftEdgeIs(fused, p, a);
    } else if FreeEndsAt(fused, q, a) {
      assert FreeEndsAt(blocks, q, a);
    }
  }

  /** Only the pending block and free neighbours lie in the stretch. */
  lemma StretchIdle(blocks: Blocks, cursor: nat, a: nat)
    requires Tiled(blocks, BASE, cursor) && a in blocks
    ensures forall b :: b in blocks && LeftEdge(blocks, a) <= b < RightEdge(blocks, a) && b != a ==>
            blocks[b].kind.Free?
  {
    var lo, hi := LeftEdge(blocks, a), RightEdge(blocks, a);
    forall b | b in blocks && lo <= b < hi && b != a ensures blocks[b].kind.Free? {
      if b < a {
        assert FreeEndsAt(blocks, lo, a);
      }
    }
  }

  /** Fusing forward first and backward second is fusing the whole stretch. */
  lemma FuseLaws(blocks: Blocks, cursor: nat, a: nat)
    requires Tiled(blocks, BASE, cursor) && a in blocks && blocks[a].kind.Pending?
    requires Tiled(Fused(blocks, a, RightEdge(blocks, a), Pending), BASE, cursor)
    ensures var lo, hi := LeftEdge(blocks, a), RightEdge(blocks, a);
            var forward := Fused(blocks, a, hi, Pending);
            && a in forward && forward[a].kind.Pending? && After(forward, a) == hi
            && LeftEdge(forward, a) == lo
            && Fused(forward, lo, hi, Pending) == Fused(blocks, lo, hi, Pending)
            && lo in Fused(blocks, lo, hi, Pending) && Fused(blocks, lo, hi, Pending)[lo].kind.Pending?
  {
    var lo, hi := LeftEdge(blocks, a), RightEdge(blocks, a);
    LeftEdgeKept(blocks, cursor, a, hi);
    FuseTwice(blocks, lo, a, hi);
  }

  lemma FuseKeepsLive(blocks: Blocks, cursor: nat, a: nat)
    requires Tiled(blocks, BASE, cursor) && a in blocks && blocks[a].kind.Pending?
    ensures var lo, hi := LeftEdge(blocks, a), RightEdge(blocks, a);
            && LiveKept(blocks, Fused(blocks, a, hi, Pending)) && LiveKept(blocks, Fused(blocks, lo, hi, Pending))
            && LiveKept(blocks, CutOut(blocks, lo, hi))
            && LiveKept(Fused(blocks, lo, hi, Pending), blocks) && LiveKept(CutOut(blocks, lo, hi), blocks)
  {
    StretchIdle(blocks, cursor, a);
  }

  /** The coalesced stretch has no free neighbour left on either side. */
  lemma EdgesInsulated(blocks: Blocks, cursor: nat, a: nat)
    requires Tiled(blocks, BASE, cursor) && Separated(blocks) && a in blocks && blocks[a].kind.Pending?
    ensures var lo, hi := LeftEdge(blocks, a), RightEdge(blocks, a);
            var fused := Fused(blocks, lo, hi, Pending);
            && After(fused, lo) == hi
            && NoFreeBefore(fused, lo)
            && (hi != cursor ==> Insulated(fused, lo))
            && fused - {lo} == CutOut(blocks, lo, hi)
  {
    var lo, hi := LeftEdge(blocks, a), RightEdge(blocks, a);
    var fused := Fused(blocks, lo, hi, Pending);
    forall p {:trigger After(fused, p)} | p in fused && After(fused, p) == lo && fused[p].kind.Free? ensures false {
      assert p in blocks && After(blocks, p) == lo;
      if lo == a {
        assert FreeEndsAt(blocks, p, a);
      }
    }
    assert After(blocks, a) == cursor || After(blocks, a) in blocks;
    if After(blocks, a) in blocks {
      assert After(blocks, After(blocks, a)) == cursor || After(blocks, After(blocks, a)) in blocks;
    }
  }

  lemma FuseNothing(blocks: Blocks, cursor: nat, a: nat)
    requires Tiled(blocks, BASE, cursor) && a in blocks && blocks[a].kind.Pending?
    ensures Fused(blocks, a, After(blocks, a), Pending) == blocks
  {
    assert forall b :: b in blocks && a <= b < After(blocks, a) ==> b == a;
  }

  ghost predicate NoneFits(list: seq<nat>, end: nat, blocks: Blocks, needed: nat)
  {
    forall j :: 0 <= j < end <= |list| ==> list[j] in blocks ==> blocks[list[j]].cap < needed
  }

  /** `h` is the first block that fits: none before it on its list, none in an earlier bin. */
  ghost predicate FirstFit(lists: seq<seq<nat>>, blocks: Blocks, needed: nat, h: nat, bin: nat, i: nat)
  {
    && bin < |lists| && i < |lists[bin]| && lists[bin][i] == h && Fits(blocks, h, needed)
    && NoneFits(lists[bin], i, blocks, needed)
    && forall b :: BinFor(needed) <= b < bin ==> NoneFits(lists[b], |lists[b]|, blocks, needed)
  }

  lemma FirstFitFits(lists: seq<seq<nat>>, blocks: Blocks, needed: nat, h: nat, bin: nat, i: nat)
    requires FirstFit(lists, blocks, needed, h, bin, i)
    ensures Fits(blocks, h, needed) && bin < |lists| && i < |lists[bin]| && lists[bin][i] == h
  {
  }

  /** What is left of a free block that is cut down has no free neighbour. */
  lemma RestInsulated(blocks: Blocks, cursor: nat, h: nat, needed: nat)
    requires Tiled(blocks, BASE, cursor) && Separated(blocks) && Fits(blocks, h, needed + HEADER + MIN_CAPACITY)
    requires needed >= MIN_CAPACITY
    ensures var pending := blocks[h := Block(blocks[h].cap, Pending)];
            && h + HEADER + needed !in blocks
            && Insulated(Split(pending, h, needed), h + HEADER + needed)
            && Split(pending, h, needed)[h + HEADER + needed := Block(blocks[h].cap - needed - HEADER, Free)] ==
              Taken(blocks, h, needed, Pending)
  {
    var rest, pending := h + HEADER + needed, blocks[h := Block(blocks[h].cap, Pending)];
    var split := Split(pending, h, needed);
    assert After(split, rest) == After(blocks, h);
    assert forall p {:trigger After(split, p)} :: p in split && p != h ==> After(split, p) != rest;
  }

  /** What a successful allocation does: it takes the first fit, or else bumps the cursor. */
  ghost predicate Allocated(blocks0: Blocks, lists0: seq<seq<nat>>, cursor0: nat, blocks: Blocks, cursor: nat, h: nat,
      size: Word, site: Word)
  {
    var needed, kind := CapacityForSize(size), Live(size, site);
    if exists a :: Fits(blocks0, a, needed) then
      && cursor == cursor0
      && (exists bin, i :: FirstFit(lists0, blocks0, needed, h, bin, i))
      && h in blocks0 && blocks == Taken(blocks0, h, needed, kind)
    else
      h == cursor0 && cursor == cursor0 + HEADER + needed && blocks == blocks0[h := Block(needed, kind)]
  }

  /** No free block is large enough and the bump region has no room left. */
  ghost predicate Exhausted(blocks: Blocks, cursor: nat, needed: nat)
  {
    (forall a :: !Fits(blocks, a, needed)) && cursor + HEADER + needed > END
  }

  function SizeOf(request: nat): nat { if request == 0 then 1 else request }

  function SiteOf(callSite: Word): Word { if callSite == 0 then HOST_SITE else callSite }

  /** Everything an allocation can do to the blocks and the cursor. */
  ghost predicate AllocateOutcome(blocks0: Blocks, lists0: seq<seq<nat>>, cursor0: nat, blocks: Blocks, cursor: nat,
      p: nat, request: nat, callSite: Word)
  {
    && (p == 0 <==> CapacityForSize(request) == 0 || Exhausted(blocks0, cursor0, CapacityForSize(request)))
    && (p == 0 ==> blocks == blocks0 && cursor == cursor0)
    && (p != 0 ==>
          && p >= BASE + HEADER && SizeOf(request) < WORD_LIMIT
          && Allocated(blocks0, lists0, cursor0, blocks, cursor, p - HEADER, SizeOf(request), SiteOf(callSite)))
  }

  // ---------------------------------------------------------------- what a request gets, in bytes

  /** Some free block, or what is left of the region, has room for that many bytes. */
  ghost predicate RoomFor(blocks: Blocks, cursor: nat, bytes: nat)
  {
    || (exists a :: a in blocks && blocks[a].kind.Free? && blocks[a].cap >= bytes)
    || cursor + HEADER + bytes <= END
  }

  /** A request is granted exactly when its size fits a word and there is room for it and 16 bytes
      of slack; what it gets is no more than 79 bytes larger. */
  ghost predicate Serves(blocks0: Blocks, cursor0: nat, blocks: Blocks, p: nat, request: nat, callSite: Word)
  {
    var size := if request == 0 then 1 else request;
    && (p != 0 <==> request <= WORD_LIMIT - 32 && RoomFor(blocks0, cursor0, size + 16))
    && (p != 0 ==>
          && p % 16 == 0 && LivePointer(blocks, p) && blocks[p - HEADER].kind.requested == size
          && blocks[p - HEADER].kind.site == (if callSite == 0 then HOST_SITE else callSite)
          && size + 16 <= blocks[p - HEADER].cap < size + 80)
  }

  /** With everything a multiple of 16, room for the slack is room for the rounded capacity. */
  lemma RoomRounded(blocks: Blocks, cursor: nat, size: nat)
    requires Aligned(blocks) && cursor % 16 == 0 && 0 < size <= WORD_LIMIT - 32
    ensures Exhausted(blocks, cursor, CapacityForSize(size)) <==> !RoomFor(blocks, cursor, size + 16)
  {
    var needed := CapacityForSize(size);
    forall a | a in blocks && blocks[a].kind.Free? ensures blocks[a].cap >= needed <==> blocks[a].cap >= size + 16 {
      RoundedUp(blocks[a].cap, needed, size);
    }
    RoundedUp(END - HEADER - cursor, needed, size);
    if RoomFor(blocks, cursor, size + 16) && cursor + HEADER + size + 16 > END {
      var a :| a in blocks && blocks[a].kind.Free? && blocks[a].cap >= size + 16;
      assert Fits(blocks, a, needed);
    }
  }

  lemma RoundedUp(cap: int, needed: nat, size: nat)
    requires cap % 16 == 0 && needed % 16 == 0 && size + 16 <= needed < size + 32
    ensures cap >= needed <==> cap >= size + 16
  {
  }

  lemma AllocationServes(blocks0: Blocks, lists0: seq<seq<nat>>, cursor0: nat, blocks: Blocks, cursor: nat, p: nat,
      request: nat, callSite: Word)
    requires Tiled(blocks0, BASE, cursor0) && Aligned(blocks0) && cursor0 % 16 == 0
    requires AllocateOutcome(blocks0, lists0, cursor0, blocks, cursor, p, request, callSite)
    ensures Serves(blocks0, cursor0, blocks, p, request, callSite)
  {
    hide Tiled, Exhausted, RoomFor, Allocated, Aligned, LiveOf;
    var size := SizeOf(request);
    assert CapacityForSize(request) == CapacityForSize(size);
    hide CapacityForSize;
    if request <= WORD_LIMIT - 32 {
      RoomRounded(blocks0, cursor0, size);
    }
    if p != 0 {
      AllocationAddsOnlyItself(blocks0, lists0, cursor0, blocks, cursor, p - HEADER, size, SiteOf(callSite));
      AllocatedCapacity(blocks0, lists0, cursor0, blocks, cursor, p - HEADER, size, SiteOf(callSite));
    }
  }

  lemma AllocatedCapacity(blocks0: Blocks, lists0: seq<seq<nat>>, cursor0: nat, blocks: Blocks, cursor: nat, h: nat,
      size: Word, site: Word)
    requires Tiled(blocks0, BASE, cursor0) && Aligned(blocks0) && cursor0 % 16 == 0
    requires Allocated(blocks0, lists0, cursor0, blocks, cursor, h, size, site)
    ensures h in blocks && h % 16 == 0 && blocks[h].cap < CapacityForSize(size) + HEADER + MIN_CAPACITY
  {
    if exists a :: Fits(blocks0, a, CapacityForSize(size)) {
      var bin, i :| FirstFit(lists0, blocks0, CapacityForSize(size), h, bin, i);
      FirstFitFits(lists0, blocks0, CapacityForSize(size), h, bin, i);
      if blocks0[h].cap >= CapacityForSize(size) + HEADER + MIN_CAPACITY {
        SplitApart(blocks0, h, CapacityForSize(size));
      }
    }
  }

  /** realloc of a live block in bytes: it stays where it is while it has room for the new size and
      16 bytes of slack, grows in place when it is the last and the region has room, and
      otherwise moves if a request of that size can be granted. */
  ghost predicate ResizeServes(blocks0: Blocks, cursor0: nat, blocks: Blocks, pointer: nat, r: nat, size: nat)
    requires LivePointer(blocks0, pointer)
  {
    var b := blocks0[pointer - HEADER];
    && (r != 0 ==>
          LivePointer(blocks, r) && blocks[r - HEADER].kind.requested == size && size + 16 <= blocks[r - HEADER].cap)
    && if size > WORD_LIMIT - 32 then r == 0
       else if size + 16 <= b.cap then
         r == pointer && blocks[r - HEADER].cap == b.cap && blocks[r - HEADER].kind.site == b.kind.site
       else if pointer + b.cap == cursor0 && pointer + size + 16 <= END then
         r == pointer && blocks[r - HEADER].cap < size + 32 && blocks[r - HEADER].kind.site == b.kind.site
       else r != 0 <==> RoomFor(blocks0, cursor0, size + 16)
  }

  lemma ReallocationServes(mem0: Memory, blocks0: Blocks, lists0: seq<seq<nat>>, cursor0: nat, mem: Memory,
      blocks: Blocks, cursor: nat, pointer: nat, r: nat, size: nat, callSite: Word)
    requires Aligned(blocks0) && cursor0 % 16 == 0 && LivePointer(blocks0, pointer) && 0 < size && pointer % 16 == 0
    requires ReallocateOutcome(mem0, blocks0, lists0, cursor0, mem, blocks, cursor, pointer, r, size, callSite)
    ensures ResizeServes(blocks0, cursor0, blocks, pointer, r, size)
  {
    hide RoomFor, Allocated, Exhausted, SameBytes, SamePayloads, LiveOf, Released, CursorAfter, CapacityForSize;
    var needed, cap := CapacityForSize(size), blocks0[pointer - HEADER].cap;
    if needed != 0 {
      RoundedUp(cap, needed, size);
      RoundedUp(END - pointer, needed, size);
      RoomRounded(blocks0, cursor0, size);
    }
  }

  /** What is freed can be had again: there is room for a request as large as the freed block. */
  lemma ReleasedHasRoom(blocks: Blocks, cursor: nat, a: nat)
    requires Tiled(blocks, BASE, cursor) && a in blocks && blocks[a].kind.Live? && cursor <= END
    ensures RoomFor(Released(blocks, a, cursor), CursorAfter(blocks, a, cursor), blocks[a].cap)
  {
    var lo, hi := LeftEdge(blocks, a), RightEdge(blocks, a);
    if hi != cursor {
      var released := Released(blocks, a, cursor);
      assert lo in released && released[lo].kind.Free? && released[lo].cap >= blocks[a].cap;
    }
  }

  /** An allocation starts one life and ends none. */
  lemma AllocationAddsOnlyItself(blocks0: Blocks, lists0: seq<seq<nat>>, cursor0: nat, blocks: Blocks, cursor: nat,
      h: nat, size: Word, site: Word)
    requires Tiled(blocks0, BASE, cursor0) && Allocated(blocks0, lists0, cursor0, blocks, cursor, h, size, site)
    ensures h !in LiveOf(blocks0) && h in blocks
    ensures blocks[h].kind == Live(size, site) && blocks[h].cap >= CapacityForSize(size)
    ensures LiveOf(blocks) == LiveOf(blocks0)[h := blocks[h]]
  {
    var needed, kind := CapacityForSize(size), Live(size, site);
    if exists a :: Fits(blocks0, a, needed) {
      var bin, i :| FirstFit(lists0, blocks0, needed, h, bin, i);
      FirstFitFits(lists0, blocks0, needed, h, bin, i);
      if blocks0[h].cap >= needed + HEADER + MIN_CAPACITY {
        SplitApart(blocks0, h, needed);
      }
      TakenLives(blocks0, h, needed, kind);
    }
  }

  lemma TakenLives(blocks: Blocks, h: nat, needed: nat, kind: Kind)
    requires Fits(blocks, h, needed) && kind.Live?
    requires blocks[h].cap >= needed + HEADER + MIN_CAPACITY ==> h + HEADER + needed !in blocks
    ensures var taken := Taken(blocks, h, needed, kind);
            && h in taken && taken[h].kind == kind && taken[h].cap >= needed
            && LiveOf(taken) == LiveOf(blocks)[h := taken[h]]
  {
    var taken := Taken(blocks, h, needed, kind);
    assert LiveOf(taken).Keys == LiveOf(blocks)[h := taken[h]].Keys;
  }

  /** What realloc does to a live block: it stays where it is when it fits or can grow at the
      top, and is otherwise copied into a fresh block and released. */
  ghost predicate Resized(blocks0: Blocks, lists0: seq<seq<nat>>, cursor0: nat, blocks: Blocks, cursor: nat,
      pointer: nat, r: nat, size: nat, callSite: Word)
    requires LivePointer(blocks0, pointer)
  {
    var h, b, needed := pointer - HEADER, blocks0[pointer - HEADER], CapacityForSize(size);
    if needed == 0 then
      r == 0 && blocks == blocks0 && cursor == cursor0
    else if needed <= b.cap then
      r == pointer && blocks == blocks0[h := Block(b.cap, Live(size, b.kind.site))] && cursor == cursor0
    else if After(blocks0, h) == cursor0 && pointer + needed <= END then
      r == pointer && blocks == blocks0[h := Block(needed, Live(size, b.kind.site))] && cursor == pointer + needed
    else if r == 0 then
      Exhausted(blocks0, cursor0, needed) && blocks == blocks0 && cursor == cursor0
    else
      exists blocks1, cursor1 ::
        && AllocateOutcome(blocks0, lists0, cursor0, blocks1, cursor1, r, size, callSite)
        && h in blocks1 && blocks == Released(blocks1, h, cursor1) && cursor == CursorAfter(blocks1, h, cursor1)
  }

  /** The pointers a caller may hand back: the source cannot tell words that the guest has
      arranged inside a payload to look like a live header from a block. */
  ghost predicate NotForged(mem: Memory, cursor: nat, blocks: Blocks, pointer: Word)
  {
    Mapped(mem) && cursor <= END && (HeaderVerdict(mem, cursor, pointer).Sound? ==> LivePointer(blocks, pointer))
  }

  /** Null, current blocks and every pointer ever freed whose header has not been handed out anew
      are among the pointers that a caller may free. */
  ghost predicate MayFree(mem: Memory, cursor: nat, blocks: Blocks, freed: set<nat>, pointer: Word)
  {
    (pointer >= HEADER && pointer - HEADER in freed) || NotForged(mem, cursor, blocks, pointer)
  }

  function Least(a: nat, b: nat): nat { if a <= b then a else b }

  /** What every caller of realloc relies on: the new block was asked for at the new size and
      can hold it, the bytes both sizes share are there, every other live block and its
      bytes are untouched, and the old block is gone unless it is the new one. */
  ghost predicate Carried(mem0: Memory, blocks0: Blocks, mem: Memory, blocks: Blocks, pointer: nat, r: nat, size: nat)
  {
    && LivePointer(blocks0, pointer) && LivePointer(blocks, r)
    && blocks[r - HEADER].kind.requested == size && CapacityForSize(size) <= blocks[r - HEADER].cap
    && SameBytes(mem0, pointer, mem, r, Least(size, blocks0[pointer - HEADER].kind.requested))
    && LiveOf(blocks) - {r - HEADER} == LiveOf(blocks0) - {pointer - HEADER}
    && SamePayloads(mem0, mem, blocks0 - {pointer - HEADER})
  }

  /** Everything realloc can do. */
  ghost predicate ReallocateOutcome(mem0: Memory, blocks0: Blocks, lists0: seq<seq<nat>>, cursor0: nat, mem: Memory,
      blocks: Blocks, cursor: nat, pointer: nat, r: nat, size: nat, callSite: Word)
  {
    if pointer == 0 then
      AllocateOutcome(blocks0, lists0, cursor0, blocks, cursor, r, size, callSite)
    else if !LivePointer(blocks0, pointer) then
      r == 0 && blocks == blocks0 && mem == mem0 && cursor == cursor0
    else if size == 0 then
      && r == 0 && blocks == Released(blocks0, pointer - HEADER, cursor0)
      && cursor == CursorAfter(blocks0, pointer - HEADER, cursor0)
    else
      && Resized(blocks0, lists0, cursor0, blocks, cursor, pointer, r, size, callSite)
      && (if r == 0 then mem == mem0 else Carried(mem0, blocks0, mem, blocks, pointer, r, size))
  }

  lemma CarriedInPlace(mem0: Memory, mem: Memory, blocks0: Blocks, blocks: Blocks, pointer: nat, size: Word)
    requires LivePointer(blocks0, pointer) && LivePointer(blocks, pointer) && SamePayloads(mem0, mem, blocks0)
    requires blocks[pointer - HEADER].kind.requested == size && CapacityForSize(size) <= blocks[pointer - HEADER].cap
    requires blocks == blocks0[pointer - HEADER := blocks[pointer - HEADER]]
    requires blocks0[pointer - HEADER].kind.requested <= blocks0[pointer - HEADER].cap
    requires pointer - HEADER >= BASE && pointer + blocks0[pointer - HEADER].cap <= END && Mapped(mem0) && Mapped(mem)
    ensures Carried(mem0, blocks0, mem, blocks, pointer, pointer, size)
  {
    var h := pointer - HEADER;
    assert LiveOf(blocks) - {h} == LiveOf(blocks0) - {h};
    forall j | 0 <= j < blocks0[h].kind.requested ensures ByteAt(mem, pointer, j) == ByteAt(mem0, pointer, j) {
      assert blocks0[h].kind.Live?;
    }
  }

  /** A fresh block holds the first bytes of the old one; no live payload has changed. */
  ghost predicate CopiedOut(mem0: Memory, blocks0: Blocks, mem: Memory, blocks: Blocks, pointer: nat, r: nat, size: nat)
  {
    && LivePointer(blocks0, pointer) && LivePointer(blocks, pointer) && LivePointer(blocks, r)
    && r - HEADER !in LiveOf(blocks0) && LiveOf(blocks) == LiveOf(blocks0)[r - HEADER := blocks[r - HEADER]]
    && blocks[r - HEADER].kind.requested == size && CapacityForSize(size) <= blocks[r - HEADER].cap
    && size <= blocks[r - HEADER].cap && SamePayloads(mem0, mem, blocks0)
    && SameBytes(mem0, pointer, mem, r, Least(size, blocks0[pointer - HEADER].kind.requested))
  }

  /** Then the old block is released. */
  lemma CarriedByMove(mem0: Memory, blocks0: Blocks, mem1: Memory, blocks1: Blocks, mem2: Memory, blocks2: Blocks,
      cursor2: nat, pointer: nat, r: nat, size: nat)
    requires Mapped(mem1) && Mapped(mem2) && CopiedOut(mem0, blocks0, mem1, blocks1, pointer, r, size)
    requires LiveOf(blocks2) == LiveOf(blocks1) - {pointer - HEADER} && SamePayloads(mem1, mem2, blocks2)
    requires cursor2 <= END && Tiled(blocks2, BASE, cursor2)
    ensures Carried(mem0, blocks0, mem2, blocks2, pointer, r, size)
  {
    hide SamePayloads, Tiled, Mapped, SameBytes, LiveKept;
    var g, h := r - HEADER, pointer - HEADER;
    assert h in LiveOf(blocks0);
    assert g in LiveOf(blocks2) && blocks2[g] == blocks1[g];
    MoveLive(blocks0, blocks1, blocks2, g, h);
    MovePayloads(mem0, mem1, mem2, blocks0, blocks2, h);
    PayloadBytesSame(mem1, mem2, blocks2, cursor2, r, Least(size, blocks0[h].kind.requested));
    BytesChain(mem0, pointer, mem1, r, mem2, Least(size, blocks0[h].kind.requested));
  }

  lemma CopiedOutLive(mem0: Memory, blocks0: Blocks, mem: Memory, blocks: Blocks, pointer: nat, r: nat, size: nat)
    requires CopiedOut(mem0, blocks0, mem, blocks, pointer, r, size)
    ensures LivePointer(blocks, pointer) && LivePointer(blocks, r) && pointer != r
  {
    assert pointer - HEADER in LiveOf(blocks0);
  }

  /** The block an allocation makes live beside block `h`. */
  lemma NewlyLive(blocks0: Blocks, lists0: seq<seq<nat>>, cursor0: nat, blocks: Blocks, cursor: nat, p: nat,
      size: nat, callSite: Word, h: nat)
    requires Tiled(blocks0, BASE, cursor0) && p != 0 && 0 < size && LiveKept(blocks0, blocks - {p - HEADER})
    requires AllocateOutcome(blocks0, lists0, cursor0, blocks, cursor, p, size, callSite)
    requires h in blocks0 && blocks0[h].kind.Live?
    ensures p >= HEADER && p - HEADER !in LiveOf(blocks0) && p - HEADER in blocks && p - HEADER != h
    ensures h in blocks && blocks[h] == blocks0[h]
    ensures LiveOf(blocks) == LiveOf(blocks0)[p - HEADER := blocks[p - HEADER]]
    ensures blocks[p - HEADER].kind == Live(size, SiteOf(callSite))
    ensures size <= CapacityForSize(size) <= blocks[p - HEADER].cap && LiveKept(blocks0, blocks - {p - HEADER})
  {
    hide Tiled, Allocated, Exhausted;
    AllocationAddsOnlyItself(blocks0, lists0, cursor0, blocks, cursor, p - HEADER, size, SiteOf(callSite));
    assert h in LiveOf(blocks0);
  }

  lemma BytesCopied(mem0: Memory, p: nat, mem1: Memory, mem2: Memory, r: nat, n: nat)
    requires SameBytes(mem0, p, mem1, p, n) && SameBytes(mem1, p, mem2, r, n)
    ensures SameBytes(mem0, p, mem2, r, n)
  {
    hide ByteAt;
  }

  lemma BytesChain(mem0: Memory, p: nat, mem1: Memory, r: nat, mem2: Memory, n: nat)
    requires SameBytes(mem0, p, mem1, r, n) && SameBytes(mem1, r, mem2, r, n)
    ensures SameBytes(mem0, p, mem2, r, n)
  {
    hide ByteAt;
  }

  lemma MoveLive(blocks0: Blocks, blocks1: Blocks, blocks3: Blocks, g: nat, h: nat)
    requires g !in LiveOf(blocks0) && g in blocks1 && h in LiveOf(blocks0)
    requires LiveOf(blocks1) == LiveOf(blocks0)[g := blocks1[g]] && LiveOf(blocks3) == LiveOf(blocks1) - {h}
    ensures LiveOf(blocks3) - {g} == LiveOf(blocks0) - {h}
    ensures forall a :: a in blocks0 && blocks0[a].kind.Live? && a != h ==>
              a != g && a in blocks1 && blocks1[a] == blocks0[a] && a in blocks3 && blocks3[a] == blocks0[a]
  {
    forall a | a in blocks0 && blocks0[a].kind.Live? && a != h
      ensures a != g && a in blocks1 && blocks1[a] == blocks0[a] && a in blocks3 && blocks3[a] == blocks0[a]
    {
      assert a in LiveOf(blocks0);
      assert a in LiveOf(blocks1) && LiveOf(blocks1)[a] == blocks0[a];
      assert a in LiveOf(blocks3) && LiveOf(blocks3)[a] == blocks0[a];
    }
  }

  lemma MovePayloads(mem0: Memory, mem1: Memory, mem2: Memory, blocks0: Blocks, blocks2: Blocks, h: nat)
    requires SamePayloads(mem0, mem1, blocks0) && SamePayloads(mem1, mem2, blocks2)
    requires forall a :: a in blocks0 && blocks0[a].kind.Live? && a != h ==> a in blocks2 && blocks2[a] == blocks0[a]
    ensures SamePayloads(mem0, mem2, blocks0 - {h})
  {
    assert LiveKept(blocks0 - {h}, blocks2);
    PayloadsChain(mem0, mem1, mem2, blocks0 - {h}, blocks2);
  }

  /** A taken block, going live, is what the request asked for; nothing else goes live or dies. */
  lemma TakenFacts(blocks: Blocks, cursor: nat, h: nat, needed: nat, kind: Kind)
    requires Tiled(blocks, BASE, cursor) && Fits(blocks, h, needed)
    ensures var taken := Taken(blocks, h, needed, Pending);
            && h in taken && taken[h].kind.Pending? && taken[h].cap >= needed
            && taken[h := Block(taken[h].cap, kind)] == Taken(blocks, h, needed, kind)
            && LiveKept(blocks, taken) && LiveKept(blocks, Taken(blocks, h, needed, kind) - {h})
            && (NothingPending(blocks) && !kind.Pending? ==> NothingPending(Taken(blocks, h, needed, kind)))
  {
    hide Tiled, LiveKept, Taken, NothingPending;
    RestIsNew(blocks, cursor, h, needed);
    TakenAs(blocks, h, needed, kind);
    TakenKinds(blocks, h, needed, Pending);
    TakenKinds(blocks, h, needed, kind);
    if NothingPending(blocks) && !kind.Pending? {
      TakenSettled(blocks, h, needed, kind);
    }
  }

  lemma RestIsNew(blocks: Blocks, cursor: nat, h: nat, needed: nat)
    requires Tiled(blocks, BASE, cursor) && Fits(blocks, h, needed)
    ensures blocks[h].cap >= needed + HEADER + MIN_CAPACITY ==> h + HEADER + needed !in blocks
  {
    if blocks[h].cap >= needed + HEADER + MIN_CAPACITY {
      SplitApart(blocks, h, needed);
    }
  }

  lemma TakenAs(blocks: Blocks, h: nat, needed: nat, kind: Kind)
    requires Fits(blocks, h, needed)
    ensures var taken := Taken(blocks, h, needed, Pending);
            && h in taken && taken[h].kind.Pending? && taken[h].cap >= needed
            && taken[h := Block(taken[h].cap, kind)] == Taken(blocks, h, needed, kind)
  {
  }

  lemma TakenSettled(blocks: Blocks, h: nat, needed: nat, kind: Kind)
    requires Fits(blocks, h, needed) && !kind.Pending? && NothingPending(blocks)
    ensures NothingPending(Taken(blocks, h, needed, kind))
  {
  }

  lemma TakenKinds(blocks: Blocks, h: nat, needed: nat, kind: Kind)
    requires Fits(blocks, h, needed)
    requires blocks[h].cap >= needed + HEADER + MIN_CAPACITY ==> h + HEADER + needed !in blocks
    ensures var taken := Taken(blocks, h, needed, kind);
            && LiveKept(blocks, taken) && LiveKept(blocks, taken - {h})
            && forall a :: a in taken && a != h && taken[a].kind.Pending? ==> a in blocks && blocks[a].kind.Pending?
  {
  }

  lemma BumpFacts(blocks: Blocks, h: nat, b: Block)
    requires h !in blocks && !b.kind.Pending?
    ensures LiveKept(blocks, blocks[h := b] - {h})
    ensures NothingPending(blocks) ==> NothingPending(blocks[h := b])
  {
  }

  /** Where the cursor is once the stretch around `a` has been released. */
  ghost function CursorAfter(blocks: Blocks, a: nat, cursor: nat): nat
    requires a in blocks
  {
    if RightEdge(blocks, a) == cursor then LeftEdge(blocks, a) else cursor
  }

  /** The edges of the stretch around `a` do not depend on what `a` itself is, unless free. */
  lemma EdgesOfPending(blocks: Blocks, a: nat)
    requires Apart(blocks) && a in blocks && !blocks[a].kind.Free?
    ensures var pending := blocks[a := Block(blocks[a].cap, Pending)];
            && LeftEdge(pending, a) == LeftEdge(blocks, a) && RightEdge(pending, a) == RightEdge(blocks, a)
  {
    var pending := blocks[a := Block(blocks[a].cap, Pending)];
    var p, q := LeftEdge(blocks, a), LeftEdge(pending, a);
    if FreeEndsAt(blocks, p, a) {
      assert FreeEndsAt(pending, p, a);
      LeftEdgeIs(pending, p, a);
    } else if FreeEndsAt(pending, q, a) {
      assert FreeEndsAt(blocks, q, a);
    }
  }

  lemma ReleasedOfPending(blocks: Blocks, a: nat, cursor: nat)
    requires Apart(blocks) && a in blocks && !blocks[a].kind.Free?
    ensures var pending := blocks[a := Block(blocks[a].cap, Pending)];
            && Released(pending, a, cursor) == Released(blocks, a, cursor)
            && CursorAfter(pending, a, cursor) == CursorAfter(blocks, a, cursor)
  {
    EdgesOfPending(blocks, a);
    var lo, hi := LeftEdge(blocks, a), RightEdge(blocks, a);
    assert CutOut(blocks[a := Block(blocks[a].cap, Pending)], lo, hi) == CutOut(blocks, lo, hi);
  }

  lemma PendingAlone(blocks: Blocks, h: nat)
    requires NothingPending(blocks) && h in blocks
    ensures var pending := blocks[h := Block(blocks[h].cap, Pending)];
            forall a :: a in pending && pending[a].kind.Pending? ==> a == h
  {
  }

  lemma FewerPayloads(mem: Memory, mem': Memory, blocks1: Blocks, blocks: Blocks)
    requires SamePayloads(mem, mem', blocks1) && LiveKept(blocks, blocks1)
    ensures SamePayloads(mem, mem', blocks)
  {
  }

  lemma LiveChain(blocks: Blocks, blocks1: Blocks, blocks2: Blocks)
    requires LiveKept(blocks2, blocks1) && LiveKept(blocks1, blocks)
    ensures LiveKept(blocks2, blocks)
  {
  }

  /** Payloads of the blocks that are left, through two steps. */
  lemma LaterPayloads(mem0: Memory, mem1: Memory, mem: Memory, blocks1: Blocks, blocks: Blocks)
    requires SamePayloads(mem0, mem1, blocks1) && SamePayloads(mem1, mem, blocks) && LiveKept(blocks, blocks1)
    ensures SamePayloads(mem0, mem, blocks)
  {
  }

  lemma ListedLive(blocks: Blocks, h: nat)
    requires h in blocks && blocks[h].kind.Pending?
    ensures LiveKept(blocks[h := Block(blocks[h].cap, Free)], blocks)
  {
  }

  lemma FusedFree(blocks: Blocks, lo: nat, hi: nat)
    requires lo + HEADER <= hi
    ensures Fused(blocks, lo, hi, Pending)[lo := Block(hi - lo - HEADER, Free)] == Fused(blocks, lo, hi, Free)
    ensures lo in Fused(blocks, lo, hi, Pending)
    ensures Fused(blocks, lo, hi, Pending)[lo] == Block(hi - lo - HEADER, Pending)
  {
  }

  /** Only `a` was pending, so after the release nothing is. */
  lemma ReleasedSettled(blocks: Blocks, a: nat, cursor: nat)
    requires a in blocks && forall b :: b in blocks && blocks[b].kind.Pending? ==> b == a
    ensures NothingPending(Released(blocks, a, cursor))
  {
  }

  /** Releasing a block ends that block's life and no other's. */
  lemma ReleaseForgetsOnlyItself(blocks: Blocks, cursor: nat, a: nat)
    requires Tiled(blocks, BASE, cursor) && a in blocks && blocks[a].kind.Live?
    ensures LiveOf(Released(blocks, a, cursor)) == LiveOf(blocks) - {a}
  {
    StretchIdle(blocks, cursor, a);
    CutLives(blocks, LeftEdge(blocks, a), RightEdge(blocks, a), a);
  }

  lemma CutLives(blocks: Blocks, lo: nat, hi: nat, a: nat)
    requires a in blocks && lo <= a < hi && lo + HEADER <= hi
    requires forall b :: b in blocks && lo <= b < hi && b != a ==> blocks[b].kind.Free?
    ensures LiveOf(CutOut(blocks, lo, hi)) == LiveOf(blocks) - {a}
    ensures LiveOf(Fused(blocks, lo, hi, Free)) == LiveOf(blocks) - {a}
  {
  }

  // -------------------------------------------------------------- tags under each kind of write

  lemma FooterTags(mem: Memory, h: nat, capacity: Word, next: Word)
    requires h % 16 == 0 && capacity % 16 == 0
    ensures TagsKept(mem, Footed(mem, h, capacity, next), 0, 0)
  {
  }

  lemma ResetTags(mem: Memory, h: nat)
    requires h % 16 == 0
    ensures TagsKept(mem, mem[h := 0][h + 4 := FREE_MAGIC][h + 12 := 0], 0, 0)
  {
  }

  lemma CutTags(mem: Memory, h: nat, rest: nat, capacity: Word, needed: Word)
    requires h % 16 == 0 && rest % 16 == 0
    ensures TagsKept(mem, mem[rest := 0][rest + 4 := FREE_MAGIC][rest + 8 := capacity][rest + 12 := 0][h + 8 := needed],
            0, 0)
  {
  }

  lemma GrowTags(mem: Memory, h: nat, size: Word, needed: Word)
    requires h % 16 == 0
    ensures TagsKept(mem, mem[h := size][h + 8 := needed], 0, 0)
  {
  }

  lemma LiveTags(mem: Memory, h: nat, size: Word, site: Word)
    requires h % 16 == 0
    ensures TagsKept(mem, mem[h := size][h + 4 := LIVE_MAGIC][h + 12 := site], h, h + HEADER)
  {
  }

  lemma BumpTags(mem: Memory, h: nat, size: Word, needed: Word, site: Word)
    requires h % 16 == 0
    ensures TagsKept(mem, mem[h := size][h + 4 := LIVE_MAGIC][h + 8 := needed][h + 12 := site], h, h + HEADER)
  {
  }

  /** The payload between a header and the end of its block is zero. */
  ghost predicate Cleared(mem: Memory, h: nat, end: nat)
  {
    forall x :: h + HEADER <= x < end && x in mem ==> mem[x] == 0
  }

  /** The payload of a freed block is overwritten if that is asked for, and else left as it was. */
  ghost predicate Poisoned(before: Memory, after: Memory, h: nat, end: nat, poison: bool)
  {
    forall x :: x in after && h + HEADER <= x < end ==>
      x in before && after[x] == if poison then 0xdddd_dddd else before[x]
  }

  /** What an allocation leaves of the freed headers: all but those it handed out. */
  ghost predicate Remembered(freed0: set<nat>, freed: set<nat>, blocks: Blocks, p: nat)
  {
    if p == 0 then freed == freed0
    else p >= HEADER && p - HEADER in blocks && freed == Uncovered(freed0, p - HEADER, p + blocks[p - HEADER].cap)
  }

  lemma RememberedOutlive(freed0: set<nat>, freed: set<nat>, blocks: Blocks, p: nat)
    requires Remembered(freed0, freed, blocks, p) && (p != 0 ==> LivePointer(blocks, p))
    ensures Outlive(freed0, freed, LiveOf(blocks))
  {
    if p != 0 {
      LiveIn(blocks, p - HEADER);
      OutliveUncovered(freed0, freed, LiveOf(blocks), p - HEADER);
    }
  }

  /** Freeing another block afterwards forgets nothing. */
  lemma MoveOutlive(freed0: set<nat>, freed1: set<nat>, blocks1: Blocks, r: nat, freed: set<nat>, live: Blocks, h: nat)
    requires Remembered(freed0, freed1, blocks1, r) && r != 0 && LivePointer(blocks1, r) && h != r - HEADER
    requires freed == freed1 + {h} && live == LiveOf(blocks1) - {h}
    ensures Outlive(freed0, freed, live)
  {
    LiveIn(blocks1, r - HEADER);
    OutliveUncovered(freed0, freed, live, r - HEADER);
  }

  lemma LivePointerHanded(blocks: Blocks, pointer: nat)
    requires LivePointer(blocks, pointer)
    ensures Handed(LiveOf(blocks), pointer - HEADER)
  {
    LiveIn(blocks, pointer - HEADER);
  }

  lemma LiveIn(blocks: Blocks, h: nat)
    requires h in blocks && blocks[h].kind.Live?
    ensures h in LiveOf(blocks) && After(LiveOf(blocks), h) == After(blocks, h)
  {
  }

  lemma TagsReleased(mem0: Memory, mem1: Memory, mem: Memory, h: nat, end: nat)
    requires TagsKept(mem0, mem1, h, end) && TagsKept(mem1, mem, 0, 0)
    requires h % 16 == 0 && h + 4 in mem1 && mem1[h + 4] == FREE_MAGIC
    ensures TagsKept(mem0, mem, h, end) && h + 4 in mem && mem[h + 4] == FREE_MAGIC
  {
    TagStays(mem1, mem, h + 4);
    TagsWiden(mem1, mem, 0, 0, h, end);
    TagsChain(mem0, mem1, mem, h, end);
  }

  class GuestHeap {
    const poison: bool
    const bins: array<Word>
    var mem: Memory
    var cursor: nat
    var sites: seq<SiteStats>
    var liveBlocks: nat
    var liveRequested: nat
    var liveCapacity: nat
    var reusableCapacity: nat
    var validFrees: nat
    var splitBlocks: nat
    var nullFrees: nat
    var invalidFrees: nat
    var doubleFrees: nat
    var failedAllocations: nat
    ghost var blocks: Blocks
    ghost var lists: seq<seq<nat>>
    ghost var freed: set<nat>

    ghost predicate Ledger()
      reads this
    {
      && liveBlocks == Total(blocks, LiveBlocks)
      && liveRequested == Total(blocks, LiveRequested)
      && liveCapacity == Total(blocks, LiveCapacity)
      && reusableCapacity == Total(blocks, FreeCapacity)
    }

    /** Every list walk is allowed more steps than there are idle blocks. */
    ghost predicate Bounded()
      reads this
    {
      Total(blocks, IdleBlocks) <= validFrees + splitBlocks
    }

    /** What holds at every step, with blocks in transit between lists allowed. */
    ghost predicate Core()
      reads this, bins
    {
      && bins.Length == BINS
      && Shape(mem, bins[..], lists, blocks, cursor)
      && Ledger()
      && Booked(sites, blocks)
    }

    /** What holds when no block is in transit. */
    ghost predicate Intact()
      reads this, bins
    {
      Core() && Bounded() && NothingPending(blocks)
    }

    /** What holds between calls. The headers of freed blocks go on saying so, even inside a block
        they have been merged into, until what is there is handed out again. */
    ghost predicate Valid()
      reads this, bins
    {
      Intact() && Refusing(mem, LiveOf(blocks), freed)
    }

    /** The value of the link that leads to the next list entry: the bin's head, or the
        fourth header word of the entry before it. */
    function ReadLink(bin: nat, prev: Word): Word
      requires bins.Length == BINS && bin < BINS && Mapped(mem)
      requires prev == 0 || BASE <= prev < END - HEADER
      reads this, bins
    {
      if prev == 0 then bins[bin] else mem[prev + 12]
    }

    /** Takes entry `i` out of a free list by redirecting the link that leads to it. */
    method Unlink(bin: nat, prev: Word, h: Word, ghost i: nat)
      requires Core() && bin < BINS && i < |lists[bin]| && lists[bin][i] == h && prev == Before(lists[bin], i)
      modifies this`mem, this`lists, this`blocks, this`reusableCapacity, bins
      ensures Core()
      ensures h in old(blocks) && old(blocks)[h].kind.Free?
      ensures blocks == old(blocks)[h := Block(old(blocks)[h].cap, Pending)]
      ensures Total(blocks, IdleBlocks) == Total(old(blocks), IdleBlocks)
      ensures SamePayloads(old(mem), mem, old(blocks))
      ensures TagsKept(old(mem), mem, 0, 0)
    {
      hide Shape, Booked, SamePayloads, BinFor, Total, TagsKept;
      ShapeBasics(mem, bins[..], lists, blocks, cursor);
      EntryFacts(mem, bins[..], lists, blocks, cursor, bin, i);
      LinkFacts(mem, bins[..], lists, blocks, cursor, bin, i);
      UnlinkShape(mem, bins[..], lists, blocks, cursor, bin, i);
      RekindBooks(sites, blocks, h, Pending);
      TagsSame(mem);
      if prev != 0 {
        EntryFacts(mem, bins[..], lists, blocks, cursor, bin, i - 1);
        TagSet(mem, prev + 12, mem[h + 12]);
      }
      ghost var list, heads := lists[bin], HeadWritten(bins[..], bin, lists[bin], i);
      var next := mem[h + 12];
      reusableCapacity := reusableCapacity - mem[h + 8];
      if prev == 0 {
        bins[bin] := next;
      } else {
        mem := mem[prev + 12 := next];
      }
      assert bins[..] == heads;
      lists := lists[bin := Without(list, i)];
      blocks := blocks[h := Block(blocks[h].cap, Pending)];
    }

    /** Walks one free list, at most as many steps as there can be idle blocks. */
    method FindOnList(bin: nat, h: Word) returns (found: bool, prev: Word, ghost i: nat)
      requires Core() && Bounded() && bin < BINS
      ensures found <==> h in lists[bin]
      ensures found ==> i < |lists[bin]| && lists[bin][i] == h && prev == Before(lists[bin], i)
    {
      hide Shape, Booked, Total, BinFor;
      ShapeBasics(mem, bins[..], lists, blocks, cursor);
      ListIsShort(mem, bins[..], lists, blocks, cursor, bin);
      ghost var list := lists[bin];
      prev, i := 0, 0;
      var count := 0;
      LinkFacts(mem, bins[..], lists, blocks, cursor, bin, 0);
      while ReadLink(bin, prev) != 0 && count < validFrees + splitBlocks + 1
        invariant i == count <= |list| && prev == Before(list, i)
        invariant prev == 0 || BASE <= prev < END - HEADER
        invariant ReadLink(bin, prev) == if i < |list| then list[i] else 0
        invariant h !in list[..i]
        decreases |list| - i
      {
        var current := ReadLink(bin, prev);
        EntryFacts(mem, bins[..], lists, blocks, cursor, bin, i);
        if current == h {
          return true, prev, i;
        }
        prev, count, i := current, count + 1, i + 1;
        LinkFacts(mem, bins[..], lists, blocks, cursor, bin, i);
        assert list[..i] == list[..i - 1] + [current];
      }
      if i < |list| {
        EntryFacts(mem, bins[..], lists, blocks, cursor, bin, i);
      }
      assert list[..i] == list;
      found := false;
    }

    /** Takes a block off its free list. What looks like a free block inside some other
        block's payload is refused, because it is on no list. */
    method RemoveFree(h: Word) returns (removed: bool)
      requires Core() && Bounded() && h % 16 == 0 && BASE <= h && h + HEADER <= cursor
      modifies this`mem, this`lists, this`blocks, this`reusableCapacity, bins
      ensures Core() && Bounded()
      ensures removed <==> h in old(blocks) && old(blocks)[h].kind.Free?
      ensures blocks == if removed then old(blocks)[h := Block(old(blocks)[h].cap, Pending)] else old(blocks)
      ensures SamePayloads(old(mem), mem, old(blocks))
      ensures TagsKept(old(mem), mem, 0, 0)
    {
      hide Shape, Booked, Total, BinFor, SamePayloads, TagsKept;
      ShapeBasics(mem, bins[..], lists, blocks, cursor);
      SameMemory(mem, blocks);
      TagsSame(mem);
      if h in blocks {
        BlockFacts(mem, bins[..], lists, blocks, cursor, h);
      }
      if mem[h + 4] != FREE_MAGIC || mem[h + 8] < MIN_CAPACITY || mem[h + 8] % 16 != 0 {
        return false;
      }
      var bin := BinForCapacity(mem[h + 8]);
      ghost var i;
      if h in blocks && blocks[h].kind.Free? {
        i := FreeIsListed(mem, bins[..], lists, blocks, cursor, h);
      }
      var link;
      removed, link, i := FindOnList(bin, h);
      if removed {
        EntryFacts(mem, bins[..], lists, blocks, cursor, bin, i);
        Unlink(bin, link, h, i);
        ghost var unlinked := mem;
        RetireLink(h);
        PayloadsChain(old(mem), unlinked, mem, old(blocks), blocks);
        TagsChain(old(mem), unlinked, mem, 0, 0);
      }
    }

    /** Clears the link word of a block that has just left its list. */
    method RetireLink(h: Word)
      requires Core() && h in blocks && blocks[h].kind.Pending?
      modifies this`mem
      ensures Core() && SamePayloads(old(mem), mem, blocks)
      ensures TagsKept(old(mem), mem, 0, 0)
    {
      hide Shape, SamePayloads, Booked, Total, TagsKept;
      BlockFacts(mem, bins[..], lists, blocks, cursor, h);
      RetireShape(mem, bins[..], lists, blocks, cursor, h);
      TagSet(mem, h + 12, 0);
      mem := mem[h + 12 := 0];
    }

    method WriteFooter(h: Word, capacity: Word, next: Word)
      requires h % 16 == 0 && capacity % 16 == 0
      modifies this`mem
      ensures mem == Footed(old(mem), h, capacity, next) && TagsKept(old(mem), mem, 0, 0)
    {
      FooterTags(mem, h, capacity, next);
      mem := mem[h + HEADER + capacity - 8 := FREE_MAGIC][h + HEADER + capacity - 4 := capacity][h + 12 := next];
    }

    /** Puts a block on the list of its bin and marks its end with a footer. */
    method InsertFree(h: Word)
      requires Core() && Bounded() && h in blocks && blocks[h].kind.Pending? && Insulated(blocks, h)
      modifies this`mem, this`lists, this`blocks, this`reusableCapacity, bins
      ensures Core() && Bounded()
      ensures blocks == old(blocks)[h := Block(old(blocks)[h].cap, Free)]
      ensures SamePayloads(old(mem), mem, old(blocks))
      ensures TagsKept(old(mem), mem, 0, 0)
    {
      hide Shape, SamePayloads, Booked, Total, BinFor, Insulated, TagsKept, Footed;
      ShapeBasics(mem, bins[..], lists, blocks, cursor);
      BlockFacts(mem, bins[..], lists, blocks, cursor, h);
      PushShape(mem, bins[..], lists, blocks, cursor, h);
      RekindBooks(sites, blocks, h, Free);
      var capacity := mem[h + 8];
      var bin := BinForCapacity(capacity);
      ghost var heads := bins[..][bin := h];
      WriteFooter(h, capacity, bins[bin]);
      bins[bin] := h;
      reusableCapacity := reusableCapacity + capacity;
      assert bins[..] == heads;
      lists := lists[bin := [h as nat] + lists[bin]];
      blocks := blocks[h := Block(blocks[h].cap, Free)];
    }

    /** Makes two adjacent blocks that are on no list into one by enlarging the first. */
    method Join(first: Word, second: nat, capacity: Word)
      requires Core() && Bounded() && first in blocks && second in blocks && After(blocks, first) == second
      requires blocks[first].kind.Pending? && blocks[second].kind.Pending?
      requires capacity == blocks[first].cap + HEADER + blocks[second].cap
      modifies this`mem, this`blocks
      ensures Core() && Bounded()
      ensures blocks == Merged(old(blocks), first, second)
      ensures SamePayloads(old(mem), mem, old(blocks))
      ensures TagsKept(old(mem), mem, 0, 0)
    {
      hide Shape, SamePayloads, Booked, Total, TagsKept;
      MergeShape(mem, bins[..], lists, blocks, cursor, first, second);
      MergeBooks(sites, blocks, first, second);
      BlockFacts(mem, bins[..], lists, blocks, cursor, first);
      TagSet(mem, first + 8, capacity);
      mem := mem[first + 8 := capacity];
      blocks := Merged(blocks, first, second);
    }

    /** Absorbs the free block that follows `h`, if there is one. */
    method MergeForward(h: Word)
      requires Core() && Bounded() && h in blocks && blocks[h].kind.Pending?
      requires forall a :: a in blocks && blocks[a].kind.Pending? ==> a == h
      modifies this`mem, this`lists, this`blocks, this`reusableCapacity, bins
      ensures Core() && Bounded()
      ensures blocks == Fused(old(blocks), h, RightEdge(old(blocks), h), Pending)
      ensures SamePayloads(old(mem), mem, old(blocks))
      ensures TagsKept(old(mem), mem, 0, 0)
    {
      hide Shape, SamePayloads, Booked, Total, Tiled, Apart, Fused, Merged, TagsKept;
      SameMemory(mem, blocks);
      TagsSame(mem);
      BlockFacts(mem, bins[..], lists, blocks, cursor, h);
      ShapeTiled(mem, bins[..], lists, blocks, cursor);
      FuseNothing(blocks, cursor, h);
      var capacity := mem[h + 8];
      var next := h + HEADER + capacity;
      if next in blocks {
        BlockFacts(mem, bins[..], lists, blocks, cursor, next);
      }
      if next + HEADER <= cursor {
        var nextCapacity := mem[next + 8];
        if mem[next + 4] == FREE_MAGIC && nextCapacity >= MIN_CAPACITY && nextCapacity % 16 == 0
           && next + HEADER + nextCapacity <= cursor {
          FusePair(blocks, blocks[next := Block(blocks[next].cap, Pending)], h, next);
          var removed := RemoveFree(next);
          if removed {
            ghost var removedMem, removedBlocks := mem, blocks;
            capacity := capacity + HEADER + nextCapacity;
            Join(h, next, capacity);
            PayloadsChain(old(mem), removedMem, mem, old(blocks), removedBlocks);
            TagsChain(old(mem), removedMem, mem, 0, 0);
          }
        }
      }
    }

    /** Is absorbed by the free block that precedes `h`, if there is one: its footer is where
        `h` begins, its own header must agree, and it must be on a free list. */
    method MergeBackward(h: Word) returns (merged: Word)
      requires Core() && Bounded() && h in blocks && blocks[h].kind.Pending?
      modifies this`mem, this`lists, this`blocks, this`reusableCapacity, bins
      ensures Core() && Bounded()
      ensures merged == LeftEdge(old(blocks), h)
      ensures blocks == Fused(old(blocks), merged, After(old(blocks), h), Pending)
      ensures SamePayloads(old(mem), mem, old(blocks))
      ensures TagsKept(old(mem), mem, 0, 0)
    {
      hide Shape, SamePayloads, Booked, Total, Tiled, Apart, Fused, Merged, LeftEdge, TagsKept;
      SameMemory(mem, blocks);
      TagsSame(mem);
      ShapeTiled(mem, bins[..], lists, blocks, cursor);
      FuseNothing(blocks, cursor, h);
      BlockFacts(mem, bins[..], lists, blocks, cursor, h);
      merged := h;
      var previous := Preceding(h);
      if previous != 0 {
        if previous in blocks && blocks[previous].kind.Free? {
          BlockFacts(mem, bins[..], lists, blocks, cursor, previous);
          FusePair(blocks, blocks[previous := Block(blocks[previous].cap, Pending)], previous, h);
          LeftEdgeIs(blocks, previous, h);
        }
        var removed := RemoveFree(previous);
        if removed {
          ghost var removedMem, removedBlocks := mem, blocks;
          BlockFacts(mem, bins[..], lists, blocks, cursor, previous);
          BlockFacts(mem, bins[..], lists, blocks, cursor, h);
          Join(previous, h, mem[previous + 8] + HEADER + mem[h + 8]);
          PayloadsChain(old(mem), removedMem, mem, old(blocks), removedBlocks);
          TagsChain(old(mem), removedMem, mem, 0, 0);
          merged := previous;
        }
      }
    }

    /** Where the footer before `h` says a free block starts, if a header there agrees; 0 if not.
        A free block that does end at `h` is always found. */
    method Preceding(h: Word) returns (previous: Word)
      requires Core() && h in blocks && blocks[h].kind.Pending?
      ensures previous == 0 ==> LeftEdge(blocks, h) == h
      ensures previous != 0 ==>
                && previous % 16 == 0 && BASE <= previous && previous + HEADER <= h
                && mem[previous + 8] == h - HEADER - previous
                && (LeftEdge(blocks, h) != h ==>
                  LeftEdge(blocks, h) == previous && previous in blocks && blocks[previous].kind.Free?)
                && (previous in blocks && blocks[previous].kind.Free? ==> FreeEndsAt(blocks, previous, h))
    {
      hide Shape, Booked, Total, Tiled, Apart;
      ShapeBasics(mem, bins[..], lists, blocks, cursor);
      BlockFacts(mem, bins[..], lists, blocks, cursor, h);
      ghost var p := LeftEdge(blocks, h);
      if p != h {
        BlockFacts(mem, bins[..], lists, blocks, cursor, p);
      }
      previous := 0;
      if h >= BASE + HEADER + MIN_CAPACITY {
        var capacity := mem[h - 4];
        if mem[h - 8] == FREE_MAGIC && capacity >= MIN_CAPACITY && capacity % 16 == 0 && capacity <= h - BASE - HEADER {
          var header: Word := h - HEADER - capacity;
          if mem[header + 4] == FREE_MAGIC && mem[header + 8] == capacity {
            previous := header;
            if previous in blocks {
              BlockFacts(mem, bins[..], lists, blocks, cursor, previous);
            }
          }
        }
      }
    }

    /** Fuses the pending block with its free neighbours. */
    method MergeBoth(start: Word) returns (h: Word)
      requires Core() && Bounded() && start in blocks && blocks[start].kind.Pending?
      requires forall a :: a in blocks && blocks[a].kind.Pending? ==> a == start
      modifies this`mem, this`lists, this`blocks, this`reusableCapacity, bins
      ensures Core() && Bounded()
      ensures h == LeftEdge(old(blocks), start)
      ensures blocks == Fused(old(blocks), h, RightEdge(old(blocks), start), Pending)
      ensures h in blocks && blocks[h].kind.Pending? && After(blocks, h) == RightEdge(old(blocks), start)
      ensures NoFreeBefore(blocks, h) && (After(blocks, h) != cursor ==> Insulated(blocks, h))
      ensures blocks - {h as nat} == CutOut(old(blocks), h, RightEdge(old(blocks), start))
      ensures SamePayloads(old(mem), mem, old(blocks)) && LiveKept(old(blocks), blocks)
      ensures TagsKept(old(mem), mem, 0, 0)
    {
      hide Shape, SamePayloads, Booked, Total, Tiled, Apart, Separated, Fused, CutOut, LeftEdge, Insulated;
      hide NoFreeBefore, LiveKept, TagsKept;
      ghost var blocks0, mem0 := blocks, mem;
      ShapeTiled(mem, bins[..], lists, blocks, cursor);
      EdgesInsulated(blocks, cursor, start);
      MergeForward(start);
      ghost var mem1, blocks1 := mem, blocks;
      ShapeTiled(mem, bins[..], lists, blocks, cursor);
      FuseLaws(blocks0, cursor, start);
      FuseKeepsLive(blocks0, cursor, start);
      h := MergeBackward(start);
      PayloadsChain(mem0, mem1, mem, blocks0, blocks1);
      TagsChain(mem0, mem1, mem, 0, 0);
    }

    /** Fuses the pending block with its free neighbours. A stretch that reaches the cursor is
        given back to the bump region and there is nothing left to list. */
    method Coalesce(start: Word) returns (h: Word)
      requires Core() && Bounded() && start in blocks && blocks[start].kind.Pending?
      requires forall a :: a in blocks && blocks[a].kind.Pending? ==> a == start
      modifies this`mem, this`lists, this`blocks, this`cursor, this`reusableCapacity, bins
      ensures Core() && Bounded()
      ensures var lo, hi := LeftEdge(old(blocks), start), RightEdge(old(blocks), start);
              && h == (if hi == old(cursor) then 0 else lo)
              && cursor == (if hi == old(cursor) then lo else old(cursor))
              && blocks == (if hi == old(cursor) then CutOut(old(blocks), lo, hi)
                else Fused(old(blocks), lo, hi, Pending))
      ensures h == 0 ==> RightEdge(old(blocks), start) == old(cursor)
      ensures h != 0 ==> h in blocks && Insulated(blocks, h)
      ensures SamePayloads(old(mem), mem, old(blocks))
      ensures TagsKept(old(mem), mem, 0, 0)
    {
      hide Shape, SamePayloads, Booked, Total, Tiled, Apart, Separated, Fused, CutOut, LeftEdge, Insulated;
      hide NoFreeBefore, LiveKept, TagsKept;
      ghost var blocks0, mem0 := blocks, mem;
      h := MergeBoth(start);
      BlockFacts(mem, bins[..], lists, blocks, cursor, h);
      var capacity := mem[h + 8];
      if h + HEADER + capacity == cursor {
        DropShape(mem, bins[..], lists, blocks, cursor, h);
        DropBooks(sites, blocks, h);
        cursor := h;
        blocks := blocks - {h as nat};
        return 0;
      }
      ghost var mem2 := mem;
      ResetShape(mem, bins[..], lists, blocks, cursor, h);
      ResetTags(mem, h);
      mem := mem[h := 0][h + 4 := FREE_MAGIC][h + 12 := 0];
      PayloadsChain(mem0, mem2, mem, blocks0, blocks);
      TagsChain(mem0, mem2, mem, 0, 0);
    }

    /** The first block on one list that is large enough; the tests for a corrupt list that
        the walk makes can never succeed. */
    method FitOnList(bin: nat, needed: nat) returns (h: Word, prev: Word, ghost i: nat)
      requires Core() && Bounded() && bin < BINS
      ensures h == 0 ==> NoneFits(lists[bin], |lists[bin]|, blocks, needed)
      ensures h != 0 ==>
                && i < |lists[bin]| && lists[bin][i] == h && prev == Before(lists[bin], i)
                && Fits(blocks, h, needed) && NoneFits(lists[bin], i, blocks, needed)
    {
      hide Shape, Booked, Total, BinFor;
      ShapeBasics(mem, bins[..], lists, blocks, cursor);
      ListIsShort(mem, bins[..], lists, blocks, cursor, bin);
      ghost var list := lists[bin];
      prev, i := 0, 0;
      var traversed := 0;
      LinkFacts(mem, bins[..], lists, blocks, cursor, bin, 0);
      while ReadLink(bin, prev) != 0 && traversed < validFrees + splitBlocks + 1
        invariant i == traversed <= |list| && prev == Before(list, i)
        invariant prev == 0 || BASE <= prev < END - HEADER
        invariant ReadLink(bin, prev) == if i < |list| then list[i] else 0
        invariant NoneFits(list, i, blocks, needed)
        decreases |list| - i
      {
        h := ReadLink(bin, prev);
        EntryFacts(mem, bins[..], lists, blocks, cursor, bin, i);
        if h < BASE || h % 16 != 0 || h + HEADER > cursor {
          assert false;
        }
        var capacity := mem[h + 8];
        if mem[h + 4] != FREE_MAGIC || capacity < MIN_CAPACITY || capacity % 16 != 0 || h + HEADER + capacity > cursor {
          assert false;
        }
        if capacity >= needed {
          return;
        }
        prev, traversed, i := h, traversed + 1, i + 1;
        LinkFacts(mem, bins[..], lists, blocks, cursor, bin, i);
      }
      if i < |list| {
        EntryFacts(mem, bins[..], lists, blocks, cursor, bin, i);
      }
      h := 0;
    }

    /** Searches the bins from the request's own upwards. */
    method FindFit(needed: nat) returns (h: Word, bin: nat, prev: Word, ghost i: nat)
      requires Core() && Bounded()
      ensures h == 0 <==> forall a :: !Fits(blocks, a, needed)
      ensures h != 0 ==> FirstFit(lists, blocks, needed, h, bin, i) && bin < BINS && prev == Before(lists[bin], i)
    {
      hide Shape, Booked, Total, BinFor;
      ShapeBasics(mem, bins[..], lists, blocks, cursor);
      bin := BinForCapacity(needed);
      prev, i := 0, 0;
      while bin < BINS
        invariant BinFor(needed) <= bin <= BINS
        invariant forall b :: BinFor(needed) <= b < bin ==> NoneFits(lists[b], |lists[b]|, blocks, needed)
      {
        h, prev, i := FitOnList(bin, needed);
        if h != 0 {
          return;
        }
        bin := bin + 1;
      }
      forall a ensures !Fits(blocks, a, needed) {
        if a in blocks && blocks[a].kind.Free? {
          var j := FreeIsListed(mem, bins[..], lists, blocks, cursor, a);
          if needed <= blocks[a].cap {
            BinMonotone(needed, blocks[a].cap);
          }
        }
      }
      h := 0;
    }

    /** Takes the first free block that is large enough, giving back what it can spare. It
        answers zero exactly when no free block is large enough. */
    method TakeFree(needed: Word) returns (h: Word)
      requires Core() && Bounded() && needed % 16 == 0 && needed >= MIN_CAPACITY
      modifies this`mem, this`lists, this`blocks, this`reusableCapacity, this`splitBlocks, bins
      ensures Core() && Bounded()
      ensures h == 0 <==> forall a :: !Fits(old(blocks), a, needed)
      ensures h == 0 ==> blocks == old(blocks) && mem == old(mem)
      ensures h != 0 ==> exists bin, i :: FirstFit(old(lists), old(blocks), needed, h, bin, i)
      ensures h != 0 ==> h in old(blocks) && blocks == Taken(old(blocks), h, needed, Pending)
      ensures SamePayloads(old(mem), mem, old(blocks))
      ensures TagsKept(old(mem), mem, 0, 0)
    {
      hide Shape, Booked, Total, BinFor, SamePayloads, Insulated, Tiled, Apart, Separated, FirstFit, TagsKept;
      SameMemory(mem, blocks);
      TagsSame(mem);
      var bin, prev;
      ghost var i;
      h, bin, prev, i := FindFit(needed);
      if h == 0 {
        return;
      }
      FirstFitFits(lists, blocks, needed, h, bin, i);
      Detach(bin, prev, h, needed, i);
    }

    /** Takes a block that fits off its list, and gives back what it can spare. */
    method Detach(bin: nat, prev: Word, h: Word, needed: Word, ghost i: nat)
      requires Core() && Bounded() && bin < BINS && i < |lists[bin]| && lists[bin][i] == h
      requires prev == Before(lists[bin], i)
      requires Fits(blocks, h, needed) && needed % 16 == 0 && needed >= MIN_CAPACITY
      modifies this`mem, this`lists, this`blocks, this`reusableCapacity, this`splitBlocks, bins
      ensures Core() && Bounded()
      ensures h in old(blocks) && blocks == Taken(old(blocks), h, needed, Pending)
      ensures SamePayloads(old(mem), mem, old(blocks))
      ensures TagsKept(old(mem), mem, 0, 0)
    {
      hide Shape, Booked, Total, BinFor, SamePayloads, Insulated, Tiled, Apart, Separated, TagsKept;
      EntryFacts(mem, bins[..], lists, blocks, cursor, bin, i);
      ShapeTiled(mem, bins[..], lists, blocks, cursor);
      var capacity := mem[h + 8];
      Unlink(bin, prev, h, i);
      if capacity >= needed + HEADER + MIN_CAPACITY {
        RestInsulated(old(blocks), cursor, h, needed);
        ghost var mem1 := mem;
        GiveBack(h, needed);
        PayloadsChain(old(mem), mem1, mem, old(blocks), old(blocks)[h := Block(capacity, Pending)]);
        TagsChain(old(mem), mem1, mem, 0, 0);
      }
    }

    /** Returns what a block has beyond `needed` bytes to the free lists. */
    method GiveBack(h: Word, needed: Word)
      requires Core() && Bounded() && h in blocks && blocks[h].kind.Pending?
      requires needed % 16 == 0 && needed >= MIN_CAPACITY && blocks[h].cap >= needed + HEADER + MIN_CAPACITY
      requires Insulated(Split(blocks, h, needed), h + HEADER + needed)
      modifies this`mem, this`lists, this`blocks, this`reusableCapacity, this`splitBlocks, bins
      ensures Core() && Bounded()
      ensures blocks == Split(old(blocks), h, needed)[h + HEADER + needed :=
              Block(old(blocks)[h].cap - needed - HEADER, Free)]
      ensures SamePayloads(old(mem), mem, old(blocks))
      ensures TagsKept(old(mem), mem, 0, 0)
    {
      hide Shape, Booked, Total, SamePayloads, Insulated, TagsKept;
      var rest := CutDown(h, needed);
      ghost var mem1 := mem;
      assert rest !in old(blocks) by { SplitRestNew(old(mem), old(bins[..]), old(lists), old(blocks), cursor, h,
        needed); }
      InsertFree(rest);
      PayloadsChain(old(mem), mem1, mem, old(blocks), Split(old(blocks), h, needed));
      TagsChain(old(mem), mem1, mem, 0, 0);
    }

    /** Writes the header of a second block inside `h`, after `needed` bytes of payload. */
    method CutDown(h: Word, needed: Word) returns (rest: Word)
      requires Core() && Bounded() && h in blocks && blocks[h].kind.Pending?
      requires needed % 16 == 0 && needed >= MIN_CAPACITY && blocks[h].cap >= needed + HEADER + MIN_CAPACITY
      modifies this`mem, this`blocks, this`splitBlocks
      ensures Core() && Bounded()
      ensures rest == h + HEADER + needed && blocks == Split(old(blocks), h, needed)
      ensures SamePayloads(old(mem), mem, old(blocks))
      ensures TagsKept(old(mem), mem, 0, 0)
    {
      hide Shape, Booked, Total, SamePayloads, TagsKept;
      BlockFacts(mem, bins[..], lists, blocks, cursor, h);
      SplitShape(mem, bins[..], lists, blocks, cursor, h, needed);
      SplitBooks(sites, blocks, h, needed);
      rest := h + HEADER + needed;
      CutTags(mem, h, rest, mem[h + 8] - needed - HEADER, needed);
      mem := mem[rest := 0][rest + 4 := FREE_MAGIC][rest + 8 := mem[h + 8] - needed - HEADER][rest + 12 := 0][h + 8 :=
        needed];
      splitBlocks := splitBlocks + 1;
      blocks := Split(blocks, h, needed);
    }

    // -------------------------------------------------------------- the site table

    method SiteIndex(site: Word) returns (index: nat)
      ensures index == SiteAt(sites, site)
    {
      index := 0;
      while index < |sites| && sites[index].site != site
        invariant index <= |sites|
        invariant forall j :: 0 <= j < index ==> sites[j].site != site
      {
        index := index + 1;
      }
    }

    method RecordAllocation(site: Word, requested: nat, capacity: nat)
      modifies this`liveBlocks, this`liveRequested, this`liveCapacity, this`sites
      ensures liveBlocks == old(liveBlocks) + 1
      ensures liveRequested == old(liveRequested) + requested
      ensures liveCapacity == old(liveCapacity) + capacity
      ensures sites == Moved(old(sites), site, 0, requested, true)
    {
      liveBlocks := liveBlocks + 1;
      liveRequested := liveRequested + requested;
      liveCapacity := liveCapacity + capacity;
      var index := SiteIndex(site);
      if index < |sites| {
        sites := sites[index := SiteStats(site, sites[index].liveBytes + requested)];
      } else if |sites| < SITES {
        sites := sites + [SiteStats(site, requested)];
      }
    }

    /** The saturating subtractions of the source; none of them ever saturates. */
    method RecordFree(site: Word, requested: nat, capacity: nat)
      requires liveBlocks >= 1 && liveRequested >= requested && liveCapacity >= capacity
      requires SiteCovers(sites, site, requested)
      modifies this`validFrees, this`liveBlocks, this`liveRequested, this`liveCapacity, this`sites
      ensures validFrees == old(validFrees) + 1
      ensures liveBlocks + 1 == old(liveBlocks)
      ensures liveRequested + requested == old(liveRequested)
      ensures liveCapacity + capacity == old(liveCapacity)
      ensures sites == Moved(old(sites), site, requested, 0, false)
    {
      validFrees := validFrees + 1;
      if liveBlocks == 0 || requested > liveRequested || capacity > liveCapacity {
        assert false;
      }
      liveBlocks := liveBlocks - 1;
      liveRequested := liveRequested - requested;
      liveCapacity := liveCapacity - capacity;
      var index := SiteIndex(site);
      if index < |sites| {
        if requested > sites[index].liveBytes {
          assert false;
        }
        sites := sites[index := SiteStats(site, sites[index].liveBytes - requested)];
      }
    }

    // -------------------------------------------------------------- allocation

    /** Writes the header of a block that is off every list. */
    method AdoptPending(h: Word, size: Word, site: Word)
      requires Core() && Bounded() && h in blocks && blocks[h].kind.Pending?
      requires site != 0 && 0 < size <= WORD_LIMIT - 32 && CapacityForSize(size) <= blocks[h].cap
      modifies this`mem, this`blocks, this`liveBlocks, this`liveRequested, this`liveCapacity, this`sites
      ensures Core() && Bounded()
      ensures blocks == old(blocks)[h := Block(old(blocks)[h].cap, Live(size, site))]
      ensures SamePayloads(old(mem), mem, old(blocks))
      ensures TagsKept(old(mem), mem, h, h + HEADER)
    {
      hide Shape, Booked, Total, SamePayloads, TagsKept;
      BlockFacts(mem, bins[..], lists, blocks, cursor, h);
      AdoptShape(mem, bins[..], lists, blocks, cursor, h, size, site);
      AdoptBooks(sites, blocks, h, Block(blocks[h].cap, Live(size, site)));
      var capacity := mem[h + 8];
      LiveTags(mem, h, size, site);
      mem := mem[h := size][h + 4 := LIVE_MAGIC][h + 12 := site];
      blocks := blocks[h := Block(blocks[h].cap, Live(size, site))];
      RecordAllocation(site, size, capacity);
    }

    /** Cuts a block from the bump region. */
    method AdoptBump(size: Word, needed: Word, site: Word) returns (h: Word)
      requires Core() && Bounded() && cursor + HEADER + needed <= END
      requires site != 0 && 0 < size <= WORD_LIMIT - 32 && needed == CapacityForSize(size)
      modifies this`mem, this`cursor, this`blocks, this`liveBlocks, this`liveRequested, this`liveCapacity, this`sites
      ensures Core() && Bounded()
      ensures h == old(cursor) && cursor == old(cursor) + HEADER + needed && h !in old(blocks)
      ensures blocks == old(blocks)[h := Block(needed, Live(size, site))]
      ensures SamePayloads(old(mem), mem, old(blocks))
      ensures TagsKept(old(mem), mem, h, h + HEADER)
    {
      hide Shape, Booked, Total, SamePayloads, Tiled, Apart, Worded, TagsKept;
      ShapeBasics(mem, bins[..], lists, blocks, cursor);
      h := cursor;
      var next := cursor + HEADER + needed;
      ghost var b := Block(needed, Live(size, site));
      ghost var after := mem[h := size][h + 4 := LIVE_MAGIC][h + 8 := needed][h + 12 := site];
      ShapeCursor(mem, bins[..], lists, blocks, cursor);
      BumpTags(mem, h, size, needed, site);
      ExtendShape(mem, after, bins[..], lists, blocks, cursor, b);
      AdoptBooks(sites, blocks, h, b);
      mem := mem[h := size][h + 4 := LIVE_MAGIC][h + 8 := needed][h + 12 := site];
      cursor := next;
      blocks := blocks[h := b];
      RecordAllocation(site, size, needed);
    }

    /** memset of a live payload to zero. */
    method Clear(p: Word)
      requires Core() && LivePointer(blocks, p)
      modifies this`mem
      ensures Core()
      ensures Cleared(mem, p - HEADER, p + blocks[p - HEADER].cap)
      ensures SamePayloads(old(mem), mem, blocks - {p - HEADER})
      ensures TagsKept(old(mem), mem, p, p + blocks[p - HEADER].cap)
    {
      hide Shape, Booked, Total, SamePayloads, TagsKept;
      BlockFacts(mem, bins[..], lists, blocks, cursor, p - HEADER);
      var capacity := mem[p - 8];
      ghost var after: Memory := map x | x in mem :: if p <= x < p + capacity then 0 else mem[x];
      PayloadShape(mem, after, bins[..], lists, blocks, cursor, p - HEADER);
      OutsideTags(mem, after, p, p + capacity);
      mem := map x | x in mem :: if p <= x < p + capacity then 0 else mem[x];
    }

    /** Takes the first free block that fits and writes its header. */
    method Reuse(size: Word, needed: Word, site: Word) returns (h: Word)
      requires Intact() && 0 < size && needed == CapacityForSize(size) && needed != 0 && site != 0
      modifies this, bins
      ensures Intact() && freed == old(freed) && cursor == old(cursor)
      ensures h == 0 <==> forall a :: !Fits(old(blocks), a, needed)
      ensures h == 0 ==> blocks == old(blocks) && mem == old(mem)
      ensures h != 0 ==> h >= BASE && Allocated(old(blocks), old(lists), old(cursor), blocks, cursor, h, size, site)
      ensures h != 0 ==> h in blocks && blocks[h].kind.Live? && LiveKept(old(blocks), blocks - {h as nat})
      ensures SamePayloads(old(mem), mem, old(blocks))
      ensures h != 0 ==> TagsKept(old(mem), mem, h, h + HEADER)
    {
      hide Shape, Booked, Total, SamePayloads, BinFor, Taken, FirstFit, NothingPending, LiveKept, Tiled;
      hide Apart, TagsKept;
      ghost var blocks0, mem0 := blocks, mem;
      ShapeTiled(mem, bins[..], lists, blocks, cursor);
      h := TakeFree(needed);
      if h == 0 {
        return;
      }
      ghost var mem1, blocks1 := mem, blocks;
      ghost var bin, i :| FirstFit(old(lists), blocks0, needed, h, bin, i);
      FirstFitFits(old(lists), blocks0, needed, h, bin, i);
      TakenFacts(blocks0, cursor, h, needed, Live(size, site));
      AdoptPending(h, size, site);
      BlockFacts(mem, bins[..], lists, blocks, cursor, h);
      PayloadsChain(mem0, mem1, mem, blocks0, blocks1);
      TagsWiden(mem0, mem1, 0, 0, h, h + HEADER);
      TagsChain(mem0, mem1, mem, h, h + HEADER);
    }

    /** The part of an allocation that runs under the heap lock. */
    method Obtain(size: Word, needed: Word, site: Word) returns (h: Word)
      requires Intact() && 0 < size && needed == CapacityForSize(size) && needed != 0 && site != 0
      modifies this, bins
      ensures Intact() && freed == old(freed)
      ensures h == 0 <==> Exhausted(old(blocks), old(cursor), needed)
      ensures h == 0 ==> blocks == old(blocks) && mem == old(mem) && cursor == old(cursor)
      ensures h != 0 ==> h >= BASE && Allocated(old(blocks), old(lists), old(cursor), blocks, cursor, h, size, site)
      ensures h != 0 ==> h in blocks && blocks[h].kind.Live? && LiveKept(old(blocks), blocks - {h as nat})
      ensures SamePayloads(old(mem), mem, old(blocks))
      ensures h != 0 ==> TagsKept(old(mem), mem, h, h + HEADER)
    {
      hide Shape, Booked, Total, SamePayloads, BinFor, Taken, FirstFit, NothingPending, LiveKept, Tiled;
      hide Apart, TagsKept;
      h := Reuse(size, needed, site);
      if h != 0 {
        return;
      }
      if cursor + HEADER + needed > END {
        failedAllocations := failedAllocations + 1;
        return 0;
      }
      ShapeBasics(mem, bins[..], lists, blocks, cursor);
      h := AdoptBump(size, needed, site);
      BumpFacts(old(blocks), h, Block(needed, Live(size, site)));
    }

    /** An allocation of a size that is not zero; the freed headers are left to the caller. */
    method Provide(size: Word, needed: Word, clear: bool, site: Word) returns (h: Word)
      requires Intact() && 0 < size && needed == CapacityForSize(size) && needed != 0 && site != 0
      modifies this, bins
      ensures Intact() && freed == old(freed)
      ensures h == 0 <==> Exhausted(old(blocks), old(cursor), needed)
      ensures h == 0 ==> blocks == old(blocks) && mem == old(mem) && cursor == old(cursor)
      ensures h != 0 ==> Allocated(old(blocks), old(lists), old(cursor), blocks, cursor, h, size, site)
      ensures h != 0 ==> h in blocks && blocks[h].kind.Live? && LiveKept(old(blocks), blocks - {h as nat})
      ensures h != 0 ==> h >= BASE && h % 16 == 0 && After(blocks, h) <= END
      ensures h != 0 ==> TagsKept(old(mem), mem, h, After(blocks, h))
      ensures SamePayloads(old(mem), mem, old(blocks))
      ensures h != 0 && clear ==> Cleared(mem, h, After(blocks, h))
    {
      hide Shape, Booked, Total, SamePayloads, NothingPending, LiveKept, Allocated, Exhausted, TagsKept;
      h := Obtain(size, needed, site);
      if h == 0 {
        return;
      }
      BlockFacts(mem, bins[..], lists, blocks, cursor, h);
      var p := h + HEADER;
      ghost var mem1, end := mem, After(blocks, h);
      TagsWiden(old(mem), mem1, h, p, h, end);
      if clear {
        Clear(p);
        PayloadsChain(old(mem), mem1, mem, old(blocks), blocks - {h as nat});
        TagsWiden(mem1, mem, p, end, h, end);
        TagsChain(old(mem), mem1, mem, h, end);
      }
    }

    /** malloc and calloc: the first free block that fits, else a block cut from the bump
        region; zero exactly when the request is too large or both are exhausted. */
    method AllocateAt(request: nat, clear: bool, callSite: Word) returns (p: Word)
      requires Valid()
      modifies this, bins
      ensures Valid() && Remembered(old(freed), freed, blocks, p)
      ensures AllocateOutcome(old(blocks), old(lists), old(cursor), blocks, cursor, p, request, callSite)
      ensures Serves(old(blocks), old(cursor), blocks, p, request, callSite)
      ensures p == 0 ==> mem == old(mem)
      ensures p != 0 ==> LivePointer(blocks, p) && LiveKept(old(blocks), blocks - {p - HEADER})
      ensures SamePayloads(old(mem), mem, old(blocks))
      ensures p != 0 && clear ==> Cleared(mem, p - HEADER, p + blocks[p - HEADER].cap)
    {
      hide Shape, Booked, Total, SamePayloads, NothingPending, LiveKept, Allocated, Exhausted, TagsKept;
      hide Refusing, LiveOf, Uncovered, Cleared;
      ghost var blocks0, cursor0, lists0 := blocks, cursor, lists;
      ShapeTiled(mem, bins[..], lists, blocks, cursor);
      ShapeAligned(mem, bins[..], lists, blocks, cursor);
      SameMemory(mem, blocks);
      var size := if request == 0 then 1 else request;
      var needed := CapacityForSize(size);
      if needed == 0 {
        AllocationServes(blocks0, lists0, cursor0, blocks, cursor, 0, request, callSite);
        return 0;
      }
      var h := Provide(size, needed, clear, if callSite == 0 then HOST_SITE else callSite);
      p := if h == 0 then 0 else h + HEADER;
      AllocationServes(blocks0, lists0, cursor0, blocks, cursor, p, request, callSite);
      if h == 0 {
        return;
      }
      AllocationAddsOnlyItself(blocks0, lists0, cursor0, blocks, cursor, h, size, SiteOf(callSite));
      RefusingHanded(old(mem), LiveOf(blocks0), mem, LiveOf(blocks), freed, h, blocks[h]);
      freed := Uncovered(freed, h, After(blocks, h));
    }

    // -------------------------------------------------------------- release

    method RetireHeader(h: Word, capacity: Word)
      requires Mapped(mem) && BASE <= h && h + HEADER <= h + HEADER + capacity <= END
      modifies this`mem
      ensures Mapped(mem) && SameOutside(old(mem), mem, h, h + HEADER + capacity)
      ensures mem[h + 4] == FREE_MAGIC && mem[h + 8] == old(mem)[h + 8]
      ensures Poisoned(old(mem), mem, h, h + HEADER + capacity, poison)
    {
      mem := mem[h := 0][h + 4 := FREE_MAGIC][h + 12 := 0];
      if poison {
        mem := map x | x in mem :: if h + HEADER <= x < h + HEADER + capacity then POISON else mem[x];
      }
    }

    /** Retires the header of a live block, poisoning its payload if asked to. */
    method MarkFreed(h: Word)
      requires Core() && Bounded() && h in blocks && blocks[h].kind.Live?
      modifies this`mem, this`blocks, this`validFrees, this`liveBlocks, this`liveRequested, this`liveCapacity,
        this`sites
      ensures Core() && Bounded()
      ensures blocks == old(blocks)[h := Block(old(blocks)[h].cap, Pending)]
      ensures SamePayloads(old(mem), mem, blocks)
      ensures TagsKept(old(mem), mem, h, After(old(blocks), h)) && h + 4 in mem && mem[h + 4] == FREE_MAGIC
      ensures BASE <= h && h % 16 == 0 && Poisoned(old(mem), mem, h, After(old(blocks), h), poison)
    {
      hide Shape, Booked, Total, SamePayloads, SiteCovers, TagsKept, Poisoned;
      BlockFacts(mem, bins[..], lists, blocks, cursor, h);
      ReleaseBooks(sites, blocks, h);
      var requested, capacity, site := mem[h], mem[h + 8], mem[h + 12];
      RecordFree(site, requested, capacity);
      ghost var mem0 := mem;
      ShapeBasics(mem, bins[..], lists, blocks, cursor);
      RetireHeader(h, capacity);
      OutsideTags(mem0, mem, h, h + HEADER + capacity);
      ReleaseShape(mem0, mem, bins[..], lists, blocks, cursor, h);
      blocks := blocks[h := Block(blocks[h].cap, Pending)];
    }

    /** Coalesces the one pending block and lists what comes of it. */
    method Relist(h: Word)
      requires Core() && Bounded() && h in blocks && blocks[h].kind.Pending?
      requires forall a :: a in blocks && blocks[a].kind.Pending? ==> a == h
      modifies this`mem, this`lists, this`blocks, this`cursor, this`reusableCapacity, bins
      ensures Intact() && blocks == Released(old(blocks), h, old(cursor))
      ensures cursor == CursorAfter(old(blocks), h, old(cursor))
      ensures SamePayloads(old(mem), mem, blocks) && LiveKept(blocks, old(blocks))
      ensures TagsKept(old(mem), mem, 0, 0)
    {
      hide Shape, Booked, Total, SamePayloads, LiveKept, Tiled, Apart, Separated, Fused, CutOut, LeftEdge, RightEdge;
      hide NothingPending, Insulated, TagsKept;
      ghost var blocks1, mem1, cursor1 := blocks, mem, cursor;
      ShapeTiled(mem, bins[..], lists, blocks, cursor);
      FuseKeepsLive(blocks1, cursor, h);
      FusedFree(blocks1, LeftEdge(blocks1, h), RightEdge(blocks1, h));
      ReleasedSettled(blocks1, h, cursor1);
      var header := Coalesce(h);
      ghost var mem2, blocks2 := mem, blocks;
      FewerPayloads(mem1, mem2, blocks1, blocks2);
      if header != 0 {
        InsertFree(header);
        ListedLive(blocks2, header);
        FewerPayloads(mem2, mem, blocks2, blocks);
        LaterPayloads(mem1, mem2, mem, blocks2, blocks);
        LiveChain(blocks1, blocks2, blocks);
        TagsChain(mem1, mem2, mem, 0, 0);
      }
    }

    /** Turns a live block into free space, one block with whatever is free around it. */
    method Recycle(h: Word)
      requires Intact() && h in blocks && blocks[h].kind.Live?
      modifies this, bins
      ensures Intact() && freed == old(freed)
      ensures nullFrees == old(nullFrees) && invalidFrees == old(invalidFrees) && doubleFrees == old(doubleFrees)
      ensures blocks == Released(old(blocks), h, old(cursor)) && cursor == CursorAfter(old(blocks), h, old(cursor))
      ensures SamePayloads(old(mem), mem, blocks)
      ensures TagsKept(old(mem), mem, h, After(old(blocks), h)) && h + 4 in mem && mem[h + 4] == FREE_MAGIC
    {
      hide Shape, Booked, Total, SamePayloads, LiveKept, Tiled, Apart, Released, CursorAfter, NothingPending, TagsKept;
      ghost var blocks0, mem0 := blocks, mem;
      ShapeTiled(mem, bins[..], lists, blocks, cursor);
      ReleasedOfPending(blocks, h, cursor);
      PendingAlone(blocks0, h);
      MarkFreed(h);
      ghost var mem1, blocks1 := mem, blocks;
      Relist(h);
      LaterPayloads(mem0, mem1, mem, blocks1, blocks);
      TagsReleased(mem0, mem1, mem, h, After(blocks0, h));
    }

    /** Turns a live block into free space and remembers its header. */
    method Release(h: Word)
      requires Valid() && h in blocks && blocks[h].kind.Live?
      modifies this, bins
      ensures Valid() && freed == old(freed) + {h as nat}
      ensures nullFrees == old(nullFrees) && invalidFrees == old(invalidFrees) && doubleFrees == old(doubleFrees)
      ensures blocks == Released(old(blocks), h, old(cursor)) && cursor == CursorAfter(old(blocks), h, old(cursor))
      ensures SamePayloads(old(mem), mem, blocks)
    {
      hide Shape, Booked, Total, SamePayloads, Tiled, Apart, Released, CursorAfter, NothingPending, TagsKept, Refusing;
      ghost var mem0, blocks0 := mem, blocks;
      ShapeTiled(mem, bins[..], lists, blocks, cursor);
      ReleaseForgetsOnlyItself(blocks, cursor, h);
      LiveApart(blocks, BASE, cursor);
      BlockFacts(mem, bins[..], lists, blocks, cursor, h);
      LiveIn(blocks, h);
      Recycle(h);
      RefusingFreed(mem0, LiveOf(blocks0), mem, LiveOf(blocks), freed, h);
      freed := freed + {h as nat};
    }

    /** free. Null, pointers freed before and anything else whose header does not say it is live
        change only counters; excluded are pointers into a payload whose words the guest has made
        look like a live header, which the source cannot tell from a block either. */
    method Deallocate(pointer: Word) returns (ok: bool)
      requires Valid()
      requires MayFree(mem, cursor, blocks, freed, pointer)
      modifies this, bins
      ensures Valid()
      ensures freed == old(freed) + if LivePointer(old(blocks), pointer) then {pointer as nat - HEADER} else {}
      ensures ok <==> pointer == 0 || LivePointer(old(blocks), pointer)
      ensures LivePointer(old(blocks), pointer) ==> FreedBlock(old(blocks), old(cursor), blocks, cursor, pointer)
      ensures !LivePointer(old(blocks), pointer) ==>
                && mem == old(mem) && cursor == old(cursor) && blocks == old(blocks)
                && lists == old(lists) && bins[..] == old(bins[..])
                && nullFrees == old(nullFrees) + (if pointer == 0 then 1 else 0)
                && doubleFrees + invalidFrees == old(doubleFrees) + old(invalidFrees) + (if pointer == 0 then 0 else 1)
                && (pointer >= HEADER && pointer - HEADER in blocks ==> doubleFrees == old(doubleFrees) + 1)
      ensures SamePayloads(old(mem), mem, blocks)
      ensures LivePointer(old(blocks), pointer) ==> RoomFor(blocks, cursor, old(blocks)[pointer - HEADER].cap)
    {
      hide Shape, Booked, Total, SamePayloads, Released, NothingPending, Refusing, LiveOf, RoomFor, CursorAfter, Tiled;
      hide Apart;
      FreeIsSafe(pointer);
      ShapeTiled(mem, bins[..], lists, blocks, cursor);
      ShapeAligned(mem, bins[..], lists, blocks, cursor);
      SameMemory(mem, blocks);
      if pointer == 0 {
        nullFrees := nullFrees + 1;
        return true;
      }
      if pointer >= HEADER && pointer - HEADER in blocks {
        VerdictIsRight(mem, bins[..], lists, blocks, cursor, pointer);
      }
      var verdict := HeaderVerdict(mem, cursor, pointer);
      if verdict != Sound {
        if verdict == AlreadyFree {
          doubleFrees := doubleFrees + 1;
        } else {
          invalidFrees := invalidFrees + 1;
        }
        return false;
      }
      ReleasedHasRoom(blocks, cursor, pointer - HEADER);
      Release(pointer - HEADER);
      ok := true;
    }

    // -------------------------------------------------------------- resizing

    method RecordResize(site: Word, from: nat, to: nat)
      requires liveRequested + to >= from && SiteCovers(sites, site, from)
      modifies this`liveRequested, this`sites
      ensures liveRequested + from == old(liveRequested) + to
      ensures sites == Moved(old(sites), site, from, to, false)
    {
      liveRequested := liveRequested + to - from;
      var index := SiteIndex(site);
      if index < |sites| {
        sites := sites[index := SiteStats(site, sites[index].liveBytes + to - from)];
      }
    }

    /** The block is large enough already: only what was asked for changes. */
    method ResizeInPlace(h: Word, size: Word)
      requires Valid() && h in blocks && blocks[h].kind.Live?
      requires 0 < size <= WORD_LIMIT - 32 && CapacityForSize(size) <= blocks[h].cap
      modifies this`mem, this`blocks, this`liveRequested, this`sites
      ensures Valid() && freed == old(freed)
      ensures blocks == old(blocks)[h := Block(old(blocks)[h].cap, Live(size, old(blocks)[h].kind.site))]
      ensures SamePayloads(old(mem), mem, old(blocks))
    {
      hide Shape, Booked, Total, SamePayloads, SiteCovers, Refusing, Uncovered, TagsKept, LiveOf;
      ghost var mem0, blocks0, b := mem, blocks, Block(blocks[h].cap, Live(size, blocks[h].kind.site));
      LiveIn(blocks, h);
      NothingUncovered(mem, LiveOf(blocks), freed, h);
      BlockFacts(mem, bins[..], lists, blocks, cursor, h);
      ResizeShape(mem, bins[..], lists, blocks, cursor, h, size);
      ResizeBooks(sites, blocks, h, blocks[h].cap, size);
      RecordResize(mem[h + 12], mem[h], size);
      mem := mem[h := size];
      blocks := blocks[h := Block(blocks[h].cap, Live(size, blocks[h].kind.site))];
      LiveUpdate(blocks0, h, b);
      TagSet(mem0, h, size);
      TagsWiden(mem0, mem, 0, 0, h, h + HEADER + b.cap);
      RefusingHanded(mem0, LiveOf(blocks0), mem, LiveOf(blocks), freed, h, b);
    }

    /** The block is the last one: it grows into the bump region. */
    method GrowAtTop(h: Word, size: Word, needed: Word)
      requires Valid() && h in blocks && blocks[h].kind.Live? && After(blocks, h) == cursor
      requires 0 < size <= WORD_LIMIT - 32 && needed == CapacityForSize(size) > blocks[h].cap
      requires h + HEADER + needed <= END
      modifies this`mem, this`cursor, this`blocks, this`liveRequested, this`liveCapacity, this`sites, this`freed
      ensures Valid() && freed == Uncovered(old(freed), h, h + HEADER + needed)
      ensures blocks == old(blocks)[h := Block(needed, Live(size, old(blocks)[h].kind.site))]
      ensures cursor == h + HEADER + needed
      ensures SamePayloads(old(mem), mem, old(blocks))
    {
      hide Shape, Booked, Total, SamePayloads, Refusing, Uncovered, TagsKept, LiveOf;
      ghost var mem0, blocks0, b := mem, blocks, Block(needed, Live(size, blocks[h].kind.site));
      BlockFacts(mem, bins[..], lists, blocks, cursor, h);
      Grow(h, size, needed);
      LiveUpdate(blocks0, h, b);
      TagsWiden(mem0, mem, 0, 0, h, h + HEADER + needed);
      RefusingHanded(mem0, LiveOf(blocks0), mem, LiveOf(blocks), freed, h, b);
      freed := Uncovered(freed, h, h + HEADER + needed);
    }

    method Grow(h: Word, size: Word, needed: Word)
      requires Intact() && h in blocks && blocks[h].kind.Live? && After(blocks, h) == cursor
      requires 0 < size <= WORD_LIMIT - 32 && needed == CapacityForSize(size) > blocks[h].cap
      requires h + HEADER + needed <= END
      modifies this`mem, this`cursor, this`blocks, this`liveRequested, this`liveCapacity, this`sites
      ensures Intact() && TagsKept(old(mem), mem, 0, 0)
      ensures blocks == old(blocks)[h := Block(needed, Live(size, old(blocks)[h].kind.site))]
      ensures cursor == h + HEADER + needed
      ensures SamePayloads(old(mem), mem, old(blocks))
    {
      hide Shape, Booked, Total, SamePayloads, SiteCovers, TagsKept;
      BlockFacts(mem, bins[..], lists, blocks, cursor, h);
      ghost var b := Block(needed, Live(size, blocks[h].kind.site));
      GrowShape(mem, bins[..], lists, blocks, cursor, h, b);
      ResizeBooks(sites, blocks, h, needed, size);
      var oldCapacity := mem[h + 8];
      RecordResize(mem[h + 12], mem[h], size);
      liveCapacity := liveCapacity + needed - oldCapacity;
      cursor := h + HEADER + needed;
      GrowTags(mem, h, size, needed);
      mem := mem[h := size][h + 8 := needed];
      blocks := blocks[h := b];
    }

    /** memcpy from one live payload into another. */
    method CopyPayload(dst: Word, src: Word, n: nat)
      requires Valid() && LivePointer(blocks, dst) && LivePointer(blocks, src)
      requires n <= blocks[dst - HEADER].cap && n <= blocks[src - HEADER].cap
      modifies this`mem
      ensures Valid()
      ensures SameBytes(old(mem), src, mem, dst, n)
      ensures SamePayloads(old(mem), mem, blocks - {dst - HEADER})
    {
      hide Shape, Booked, Total, SamePayloads, ByteAt, Copied, Refusing, TagsKept, LiveOf, SameOutside;
      LiveIn(blocks, dst - HEADER);
      BlockFacts(mem, bins[..], lists, blocks, cursor, dst - HEADER);
      BlockFacts(mem, bins[..], lists, blocks, cursor, src - HEADER);
      CopiedBytes(mem, dst, src, n);
      OutsideTags(mem, Copied(mem, dst, src, n), dst, dst + n);
      RefusingInside(mem, Copied(mem, dst, src, n), LiveOf(blocks), freed, dst - HEADER, dst, dst + n);
      OutsideWiden(mem, Copied(mem, dst, src, n), dst, dst + n, dst, After(blocks, dst - HEADER));
      PayloadShape(mem, Copied(mem, dst, src, n), bins[..], lists, blocks, cursor, dst - HEADER);
      mem := Copied(mem, dst, src, n);
    }

    /** The first half of a move: a fresh block and a copy of what both can hold. */
    method CopyOut(pointer: Word, size: nat, oldSize: nat, callSite: Word) returns (r: Word)
      requires Valid() && LivePointer(blocks, pointer) && 0 < size && CapacityForSize(size) != 0
      requires oldSize == blocks[pointer - HEADER].kind.requested
      modifies this, bins
      ensures Valid() && Remembered(old(freed), freed, blocks, r)
      ensures AllocateOutcome(old(blocks), old(lists), old(cursor), blocks, cursor, r, size, callSite)
      ensures r == 0 ==> mem == old(mem)
      ensures r != 0 ==> CopiedOut(old(mem), old(blocks), mem, blocks, pointer, r, size)
    {
      hide Shape, Booked, Total, SamePayloads, LiveOf, SameBytes, Allocated, Exhausted, Tiled, Apart, Separated;
      hide Refusing, Remembered, TagsKept, NothingPending, LiveKept, AllocateOutcome;
      ghost var mem0, blocks0, cursor0, h := mem, blocks, cursor, pointer - HEADER;
      BlockFacts(mem, bins[..], lists, blocks, cursor, h);
      ShapeTiled(mem, bins[..], lists, blocks, cursor);
      r := AllocateAt(size, false, callSite);
      if r == 0 {
        return;
      }
      NewlyLive(blocks0, old(lists), cursor0, blocks, cursor, r, size, callSite, h);
      ghost var mem1 := mem;
      BlockFacts(mem, bins[..], lists, blocks, cursor, r - HEADER);
      BlockFacts(mem, bins[..], lists, blocks, cursor, h);
      PayloadBytesSame(mem0, mem1, blocks0, cursor0, pointer, Least(size, oldSize));
      CopyPayload(r, pointer, if oldSize < size then oldSize else size);
      BytesCopied(mem0, pointer, mem1, mem, r, Least(size, oldSize));
      PayloadsChain(mem0, mem1, mem, blocks0, blocks - {r as nat - HEADER});
    }

    /** The move path: allocate, copy, release. */
    method ReallocateByMove(pointer: Word, size: nat, oldSize: nat, callSite: Word) returns (r: Word)
      requires Valid() && LivePointer(blocks, pointer) && 0 < size && CapacityForSize(size) != 0
      requires oldSize == blocks[pointer - HEADER].kind.requested
      modifies this, bins
      ensures Valid() && Outlive(old(freed), freed, LiveOf(blocks))
      ensures r != 0 ==> pointer as nat - HEADER in freed
      ensures r == 0 ==> Exhausted(old(blocks), old(cursor), CapacityForSize(size))
      ensures r == 0 ==> blocks == old(blocks) && mem == old(mem) && cursor == old(cursor)
      ensures r != 0 ==> exists blocks1, cursor1 ::
                && AllocateOutcome(old(blocks), old(lists), old(cursor), blocks1, cursor1, r, size, callSite)
                && pointer - HEADER in blocks1 && blocks == Released(blocks1, pointer - HEADER, cursor1)
                && cursor == CursorAfter(blocks1, pointer - HEADER, cursor1)
      ensures r != 0 ==> Carried(old(mem), old(blocks), mem, blocks, pointer, r, size)
    {
      hide Shape, Booked, Total, SamePayloads, LiveOf, Released, CursorAfter, SameBytes, Allocated, Exhausted;
      hide Tiled, Apart, Separated, Carried, LiveKept, CopiedOut;
      hide Refusing, Outlive, Remembered, Uncovered, TagsKept, NothingPending;
      r := CopyOut(pointer, size, oldSize, callSite);
      ghost var freed1, mem1, blocks1, cursor1, h := freed, mem, blocks, cursor, pointer - HEADER;
      if r == 0 {
        RememberedOutlive(old(freed), freed, blocks, r);
        return;
      }
      CopiedOutLive(old(mem), old(blocks), mem, blocks, pointer, r, size);
      ShapeBasics(mem, bins[..], lists, blocks, cursor);
      ShapeTiled(mem, bins[..], lists, blocks, cursor);
      ReleaseForgetsOnlyItself(blocks1, cursor1, h);
      var _ := Deallocate(pointer);
      ShapeBasics(mem, bins[..], lists, blocks, cursor);
      ShapeTiled(mem, bins[..], lists, blocks, cursor);
      CarriedByMove(old(mem), old(blocks), mem1, blocks1, mem, blocks, cursor, pointer, r, size);
      MoveOutlive(old(freed), freed1, blocks1, r, freed, LiveOf(blocks), h);
    }

    /** A write by the guest inside a live payload, whatever the value. */
    method GuestWrite(x: nat, value: Word, ghost a: nat)
      requires Valid() && a in blocks && blocks[a].kind.Live? && x % 4 == 0 && a + HEADER <= x < After(blocks, a)
      modifies this`mem
      ensures Valid() && mem == old(mem)[x := value]
    {
      hide Shape, Booked, Total, SamePayloads, Refusing, TagsKept, LiveOf;
      LiveIn(blocks, a);
      OutsideTags(mem, mem[x := value], x, x + 1);
      RefusingInside(mem, mem[x := value], LiveOf(blocks), freed, a, x, x + 1);
      BlockFacts(mem, bins[..], lists, blocks, cursor, a);
      PayloadShape(mem, mem[x := value], bins[..], lists, blocks, cursor, a);
      mem := mem[x := value];
    }

    /** realloc. */
    method Reallocate(pointer: Word, size: nat, callSite: Word) returns (r: Word)
      requires Valid()
      requires MayFree(mem, cursor, blocks, freed, pointer)
      modifies this, bins
      ensures Valid() && Outlive(old(freed), freed, LiveOf(blocks))
      ensures ReallocateOutcome(old(mem), old(blocks), old(lists), old(cursor), mem, blocks, cursor, pointer, r, size,
              callSite)
      ensures pointer == 0 ==> Serves(old(blocks), old(cursor), blocks, r, size, callSite)
      ensures LivePointer(old(blocks), pointer) && size > 0 ==>
                ResizeServes(old(blocks), old(cursor), blocks, pointer, r, size)
    {
      hide Shape, Booked, Total, SamePayloads, Released, CursorAfter, Allocated, Exhausted, Carried, NothingPending;
      hide Refusing, Outlive, Remembered, Uncovered, LiveOf, Serves, ResizeServes;
      ghost var bytes0, blocks1, lists1, cursor1 := mem, blocks, lists, cursor;
      ShapeAligned(mem, bins[..], lists, blocks, cursor);
      r := Resize(pointer, size, callSite);
      if LivePointer(blocks1, pointer) && size > 0 {
        ReallocationServes(bytes0, blocks1, lists1, cursor1, mem, blocks, cursor, pointer, r, size, callSite);
      }
    }

    /** The paths of realloc. */
    method Resize(pointer: Word, size: nat, callSite: Word) returns (r: Word)
      requires Valid()
      requires MayFree(mem, cursor, blocks, freed, pointer)
      modifies this, bins
      ensures Valid() && Outlive(old(freed), freed, LiveOf(blocks))
      ensures ReallocateOutcome(old(mem), old(blocks), old(lists), old(cursor), mem, blocks, cursor, pointer, r, size,
              callSite)
      ensures pointer == 0 ==> Serves(old(blocks), old(cursor), blocks, r, size, callSite)
    {
      hide Shape, Booked, Total, SamePayloads, Released, CursorAfter, Allocated, Exhausted, Carried, NothingPending;
      hide Refusing, Outlive, Remembered, Uncovered, LiveOf, Serves;
      FreeIsSafe(pointer);
      OutliveMore(freed, freed, LiveOf(blocks));
      ghost var freed0 := freed;
      if pointer == 0 {
        r := AllocateAt(size, false, callSite);
        RememberedOutlive(freed0, freed, blocks, r);
        return;
      }
      if LivePointer(blocks, pointer) {
        VerdictIsRight(mem, bins[..], lists, blocks, cursor, pointer);
        BlockFacts(mem, bins[..], lists, blocks, cursor, pointer - HEADER);
      }
      if size == 0 {
        var _ := Deallocate(pointer);
        OutliveMore(freed0, freed, LiveOf(blocks));
        return 0;
      }
      var needed := CapacityForSize(size);
      if needed == 0 {
        return 0;
      }
      if HeaderVerdict(mem, cursor, pointer) != Sound {
        invalidFrees := invalidFrees + 1;
        return 0;
      }
      var h: Word := pointer - HEADER;
      var oldSize, oldCapacity := mem[h], mem[h + 8];
      ghost var mem0, blocks0, cursor0 := mem, blocks, cursor;
      if needed <= oldCapacity {
        ResizeInPlace(h, size);
        OutliveMore(freed0, freed, LiveOf(blocks));
        ShapeBasics(mem, bins[..], lists, blocks, cursor);
        CarriedInPlace(mem0, mem, blocks0, blocks, pointer, size);
        return pointer;
      }
      if pointer + oldCapacity == cursor {
        if pointer + needed <= END {
          GrowAtTop(h, size, needed);
          LiveIn(blocks, h);
          OutliveUncovered(freed0, freed, LiveOf(blocks), h);
          ShapeBasics(mem, bins[..], lists, blocks, cursor);
          CarriedInPlace(mem0, mem, blocks0, blocks, pointer, size);
          return pointer;
        }
      }
      r := ReallocateByMove(pointer, size, oldSize, callSite);
    }

    /** Where the heap starts: all of the region is still ahead of the cursor. */
    constructor (memory: Memory, poison: bool)
      requires Mapped(memory)
      ensures Valid() && fresh(bins) && this.poison == poison
      ensures cursor == BASE && blocks == map[] && mem == memory && sites == []
      ensures validFrees == 0 && splitBlocks == 0 && nullFrees == 0 && invalidFrees == 0 && doubleFrees == 0
    {
      this.poison := poison;
      bins := new Word[BINS](_ => 0);
      mem, cursor, sites := memory, BASE, [];
      liveBlocks, liveRequested, liveCapacity, reusableCapacity := 0, 0, 0, 0;
      validFrees, splitBlocks, nullFrees, invalidFrees, doubleFrees, failedAllocations := 0, 0, 0, 0, 0, 0;
      blocks, lists, freed := map[], seq(BINS, _ => []), {};
    }

    /** A pointer once freed is refused, however often it is freed again, until its header's bytes
        are handed out anew. */
    lemma FreedIsRefused(pointer: Word)
      requires Valid() && pointer >= HEADER && pointer as nat - HEADER in freed
      ensures NotForged(mem, cursor, blocks, pointer) && !LivePointer(blocks, pointer)
      ensures HeaderVerdict(mem, cursor, pointer) != Sound
    {
      ShapeBasics(mem, bins[..], lists, blocks, cursor);
      hide Shape, Booked, Total, LiveOf, Handed;
      if LivePointer(blocks, pointer) {
        LivePointerHanded(blocks, pointer);
      }
    }

    /** Null and any pointer that is not a multiple of 16 or lies outside the heap may be freed, and is
        refused. */
    lemma StrayIsRefused(pointer: Word)
      requires Valid() && (pointer % 16 != 0 || pointer < BASE + HEADER || pointer > cursor)
      ensures MayFree(mem, cursor, blocks, freed, pointer) && !LivePointer(blocks, pointer)
    {
      hide Shape, Booked, Total, Refusing, LiveOf, NothingPending;
      ShapeBasics(mem, bins[..], lists, blocks, cursor);
      forall a | a in blocks ensures a % 16 == 0 && BASE <= a && a + HEADER <= cursor {
        BlockFacts(mem, bins[..], lists, blocks, cursor, a);
      }
    }

    /** The only pointers excluded are those in front of which the words look like a live header in every
        respect the source tests. */
    lemma OnlyMimicsExcluded(pointer: Word)
      requires Valid() && !MayFree(mem, cursor, blocks, freed, pointer)
      ensures pointer % 16 == 0 && BASE + HEADER <= pointer <= cursor <= END && Mapped(mem)
      ensures var size, capacity := mem[pointer - HEADER], mem[pointer - HEADER + 8];
              && mem[pointer - HEADER + 4] == LIVE_MAGIC && size <= capacity && 32 <= capacity
              && capacity % 16 == 0 && pointer + capacity <= cursor
    {
      ShapeBasics(mem, bins[..], lists, blocks, cursor);
      hide Shape, Booked, Total, Refusing, LiveOf, NothingPending;
    }

    lemma FreeIsSafe(pointer: Word)
      requires Valid() && MayFree(mem, cursor, blocks, freed, pointer)
      ensures NotForged(mem, cursor, blocks, pointer)
    {
      hide Shape, Booked, Total, Refusing, NotForged;
      if pointer >= HEADER && pointer as nat - HEADER in freed {
        FreedIsRefused(pointer);
      }
    }

    /** Conservation: every byte below the cursor is live capacity, reusable capacity or header. */
    lemma Conservation()
      requires Valid()
      ensures liveCapacity + reusableCapacity + HEADER * Total(blocks, AllBlocks) == cursor - BASE
      ensures liveRequested <= liveCapacity
      ensures forall i :: 0 <= i < |sites| ==> sites[i].liveBytes == Total(blocks, SiteBytes(sites[i].site))
    {
      ShapeTiled(mem, bins[..], lists, blocks, cursor);
      SpanIsExact(blocks, BASE, cursor);
      SpanSplits(blocks);
      RequestedFits(blocks);
    }

    /** Once every block has been freed the heap is as good as new. */
    lemma AllFreedMeansReset()
      requires Valid() && LiveOf(blocks) == map[]
      ensures cursor == BASE && liveBlocks == 0 && liveRequested == 0 && liveCapacity == 0 && reusableCapacity == 0
      ensures forall bin :: 0 <= bin < BINS ==> bins[bin] == 0
    {
      NothingLiveMeansEmpty(mem, bins[..], lists, blocks, cursor);
      assert forall bin :: 0 <= bin < BINS ==> bins[..][bin] == bins[bin];
    }
  }
}
