/** The guest heap as values: the tiling of [BASE, cursor) by blocks, what a block's
    header and footer words hold, the segregated free lists and the running totals.
    GuestHeap (GuestHeap.dfy) keeps these predicates true while it edits raw words. */
module HeapModel {
  const BASE: nat := 0x0200_0000
  const END: nat := 0x7000_0000
  const HEADER: nat := 16
  const MIN_CAPACITY: nat := 32
  const BINS: nat := 64
  const SITES: nat := 512
  const LIVE_MAGIC: Word := 0x4c50_3332
  const FREE_MAGIC: Word := 0x4652_4545
  const HOST_SITE: Word := 0xff00_0001
  const POISON: Word := 0xdddd_dddd
  const WORD_LIMIT: nat := 0x1_0000_0000

  type Word = w: int | 0 <= w < 0x1_0000_0000

  /** Memory maps the byte address of a 32-bit word to its value. Only multiples of 4 are
      ever looked up; what a map holds at other addresses has no meaning. */
  type Memory = map<nat, Word>

  /** Pending is a block that is in nobody's hands: off its free list, or not yet on one. */
  datatype Kind = Live(requested: Word, site: Word) | Free | Pending
  datatype Block = Block(cap: nat, kind: Kind)
  type Blocks = map<nat, Block>

  // ---------------------------------------------------------------- capacities and bins

  /** Rounds a request up to a 16-byte multiple with at least 16 bytes of slack;
      0 is the answer for a request the 32-bit size word cannot hold. */
  function CapacityForSize(size: nat): (capacity: nat)
    ensures capacity == 0 <==> size > WORD_LIMIT - 32
    ensures capacity != 0 ==>
              capacity % 16 == 0 && MIN_CAPACITY <= capacity < WORD_LIMIT && size + 16 <= capacity
    ensures capacity != 0 ==> capacity < size + 32 || (size == 0 && capacity == 32)
  {
    var size := if size == 0 then 1 else size;
    if size > WORD_LIMIT - 32 then 0 else (size + 31) / 16 * 16
  }

  /** Bins above 512 bytes double: bin `index` ends at `bound`, the last bin takes the rest. */
  function BinFrom(capacity: nat, bound: nat, index: nat): (bin: nat)
    requires index < BINS && bound > 0
    ensures index <= bin < BINS
    decreases BINS - index
  {
    if capacity > bound && index + 1 < BINS then BinFrom(capacity, 2 * bound, index + 1) else index
  }

  function BinFor(capacity: nat): (bin: nat)
    ensures bin < BINS
  {
    if capacity <= 512 then
      (if capacity / 16 != 0 then capacity / 16 - 1 else 0)
    else
      BinFrom(capacity, 1024, 32)
  }

  /** Where the capacities of a bin end: every 16 bytes up to 512, then at each doubling. */
  function Ceiling(bin: nat): nat {
    if bin < 32 then 16 * (bin + 1) else 2 * Ceiling(bin - 1)
  }

  lemma {:induction false} BinFromBounds(capacity: nat, bound: nat, index: nat)
    requires 32 <= index < BINS && bound > 0 && bound == Ceiling(index) && Ceiling(index - 1) < capacity
    ensures var bin := BinFrom(capacity, bound, index);
            bin >= 32 && Ceiling(bin - 1) < capacity && (capacity <= Ceiling(bin) || bin == BINS - 1)
    decreases BINS - index
  {
    if capacity > bound && index + 1 < BINS {
      BinFromBounds(capacity, 2 * bound, index + 1);
    }
  }

  /** A capacity is in the one bin between whose ends it lies; the last bin takes the rest. */
  lemma BinBounds(capacity: nat)
    requires capacity % 16 == 0 && capacity >= 16
    ensures var bin := BinFor(capacity);
            (bin == 0 || Ceiling(bin - 1) < capacity) && (capacity <= Ceiling(bin) || bin == BINS - 1)
  {
    if capacity > 512 {
      assert Ceiling(31) == 512 && Ceiling(32) == 1024;
      BinFromBounds(capacity, 1024, 32);
    }
  }

  lemma BinFromMonotone(small: nat, big: nat, bound: nat, index: nat)
    requires small <= big && index < BINS && bound > 0
    ensures BinFrom(small, bound, index) <= BinFrom(big, bound, index)
    decreases BINS - index
  {
  }

  /** A block that is large enough never sits in an earlier bin than the request's own. */
  lemma BinMonotone(small: nat, big: nat)
    requires small <= big
    ensures BinFor(small) <= BinFor(big)
  {
    if small > 512 {
      BinFromMonotone(small, big, 1024, 32);
    }
  }

  // ---------------------------------------------------------------- tiling

  /** The address just past block `a`, where the next block or the cursor is. */
  function After(blocks: Blocks, a: nat): nat
    requires a in blocks
  {
    a + HEADER + blocks[a].cap
  }

  ghost predicate InRange(blocks: Blocks, lo: nat, hi: nat)
  {
    forall a :: a in blocks ==>
      lo <= a && MIN_CAPACITY <= blocks[a].cap && a + HEADER + blocks[a].cap <= hi
  }

  ghost predicate Chained(blocks: Blocks, hi: nat)
  {
    forall a {:trigger After(blocks, a)} :: a in blocks ==> After(blocks, a) == hi || After(blocks, a) in blocks
  }

  ghost predicate Apart(blocks: Blocks)
  {
    forall a, b :: a in blocks && b in blocks && a < b ==> a + HEADER + blocks[a].cap <= b
  }

  /** The blocks cover [lo, hi) exactly: gap-free and without overlap. */
  ghost predicate Tiled(blocks: Blocks, lo: nat, hi: nat)
  {
    && lo <= hi
    && (lo == hi || lo in blocks)
    && InRange(blocks, lo, hi)
    && Chained(blocks, hi)
    && Apart(blocks)
  }

  /** Blocks start on, and stretch over, multiples of 16 bytes. */
  ghost predicate Aligned(blocks: Blocks)
  {
    forall a :: a in blocks ==> a % 16 == 0 && blocks[a].cap % 16 == 0
  }

  /** A free block is followed by a block that is not free; in particular it is never last. */
  ghost predicate Separated(blocks: Blocks)
  {
    forall a {:trigger After(blocks, a)} :: a in blocks && blocks[a].kind.Free? ==>
      After(blocks, a) in blocks && !blocks[After(blocks, a)].kind.Free?
  }

  ghost predicate NothingPending(blocks: Blocks)
  {
    forall a :: a in blocks ==> !blocks[a].kind.Pending?
  }

  // ---------------------------------------------------------------- totals over the blocks

  datatype Measure =
    | LiveBlocks | LiveCapacity | LiveRequested | SiteBytes(site: Word)
    | FreeCapacity | IdleBlocks | Span | AllBlocks

  function Weight(m: Measure, b: Block): nat
  {
    match m
    case LiveBlocks => if b.kind.Live? then 1 else 0
    case LiveCapacity => if b.kind.Live? then b.cap else 0
    case LiveRequested => if b.kind.Live? then b.kind.requested else 0
    case SiteBytes(site) => if b.kind.Live? && b.kind.site == site then b.kind.requested else 0
    case FreeCapacity => if b.kind.Free? then b.cap else 0
    case IdleBlocks => if b.kind.Live? then 0 else 1
    case Span => HEADER + b.cap
    case AllBlocks => 1
  }

  ghost function Total(blocks: Blocks, m: Measure): nat
  {
    if blocks == map[] then 0
    else
      var a :| a in blocks;
      Weight(m, blocks[a]) + Total(blocks - {a}, m)
  }

  /** The total does not depend on the order in which the blocks are visited. */
  lemma {:induction false} TotalDrop(blocks: Blocks, m: Measure, a: nat)
    requires a in blocks
    ensures Total(blocks, m) == Weight(m, blocks[a]) + Total(blocks - {a}, m)
    decreases |blocks|
  {
    var c :| a in blocks && c in blocks && Total(blocks, m) == Weight(m, blocks[c]) + Total(blocks - {c}, m);
    if c != a {
      assert |blocks - {c}| < |blocks| by { assert (blocks - {c}).Keys == blocks.Keys - {c}; }
      assert |blocks - {a}| < |blocks| by { assert (blocks - {a}).Keys == blocks.Keys - {a}; }
      TotalDrop(blocks - {c}, m, a);
      TotalDrop(blocks - {a}, m, c);
      assert blocks - {c} - {a} == blocks - {a} - {c};
    }
  }

  /** Changing or adding one block moves every total by the change in that block's weight. */
  lemma TotalPut(blocks: Blocks, a: nat, b: Block)
    ensures forall m ::
              Total(blocks[a := b], m) ==
              Weight(m, b) + Total(blocks, m) - (if a in blocks then Weight(m, blocks[a]) else 0)
  {
    forall m ensures Total(blocks[a := b], m) == Weight(m, b) +
      Total(blocks, m) - (if a in blocks then Weight(m, blocks[a]) else 0)
    {
      TotalDrop(blocks[a := b], m, a);
      assert blocks[a := b] - {a} == blocks - {a};
      if a in blocks {
        TotalDrop(blocks, m, a);
      } else {
        assert blocks - {a} == blocks;
      }
    }
  }

  lemma TotalRemove(blocks: Blocks, a: nat)
    requires a in blocks
    ensures forall m :: Total(blocks - {a}, m) == Total(blocks, m) - Weight(m, blocks[a])
  {
    forall m ensures Total(blocks - {a}, m) == Total(blocks, m) - Weight(m, blocks[a])
    {
      TotalDrop(blocks, m, a);
    }
  }

  // ---------------------------------------------------------------- changes that keep the tiling

  lemma RekindTiled(blocks: Blocks, hi: nat, a: nat, kind: Kind)
    requires Tiled(blocks, BASE, hi) && a in blocks
    ensures Tiled(blocks[a := Block(blocks[a].cap, kind)], BASE, hi)
  {
    var after := blocks[a := Block(blocks[a].cap, kind)];
    forall b {:trigger After(after, b)} | b in after ensures After(after, b) == hi || After(after, b) in after {
      assert After(after, b) == After(blocks, b);
    }
  }

  function Merged(blocks: Blocks, a: nat, next: nat): Blocks
    requires a in blocks && next in blocks
  {
    (blocks - {next})[a := Block(blocks[a].cap + HEADER + blocks[next].cap, Pending)]
  }

  lemma MergeApart(blocks: Blocks, a: nat, next: nat)
    requires Apart(blocks) && a in blocks && next in blocks && After(blocks, a) == next
    ensures Apart(Merged(blocks, a, next))
  {
    var after := Merged(blocks, a, next);
    forall b, c | b in after && c in after && b < c ensures b + HEADER + after[b].cap <= c {
      if b == a {
        assert c in blocks && a < c;
        assert next <= c;
      }
    }
  }

  lemma MergeTiled(blocks: Blocks, hi: nat, a: nat, next: nat)
    requires Tiled(blocks, BASE, hi) && a in blocks && next in blocks && After(blocks, a) == next
    ensures Tiled(Merged(blocks, a, next), BASE, hi)
  {
    var after := Merged(blocks, a, next);
    assert InRange(after, BASE, hi);
    assert Apart(after) by { MergeApart(blocks, a, next); }
    forall b {:trigger After(after, b)} | b in after ensures After(after, b) == hi || After(after, b) in after {
      if b == a {
        assert After(after, a) == After(blocks, next);
      } else {
        assert After(after, b) == After(blocks, b);
      }
    }
  }

  function Split(blocks: Blocks, a: nat, needed: nat): Blocks
    requires a in blocks && blocks[a].cap >= needed + HEADER + MIN_CAPACITY
  {
    blocks[a := Block(needed, Pending)]
          [a + HEADER + needed := Block(blocks[a].cap - needed - HEADER, Pending)]
  }

  lemma SplitApart(blocks: Blocks, a: nat, needed: nat)
    requires Apart(blocks) && a in blocks && blocks[a].cap >= needed + HEADER + MIN_CAPACITY
    ensures a + HEADER + needed !in blocks
    ensures Apart(Split(blocks, a, needed))
  {
    var after, rest := Split(blocks, a, needed), a + HEADER + needed;
    forall b, c | b in after && c in after && b < c ensures b + HEADER + after[b].cap <= c {
      var b', c' := if b == rest then a else b, if c == rest then a else c;
      assert b' in blocks && c' in blocks;
    }
  }

  lemma SplitInRange(blocks: Blocks, hi: nat, a: nat, needed: nat)
    requires InRange(blocks, BASE, hi) && a in blocks
    requires needed >= MIN_CAPACITY && blocks[a].cap >= needed + HEADER + MIN_CAPACITY
    ensures InRange(Split(blocks, a, needed), BASE, hi)
  {
  }

  lemma SplitChained(blocks: Blocks, hi: nat, a: nat, needed: nat)
    requires Chained(blocks, hi) && a in blocks && blocks[a].cap >= needed + HEADER + MIN_CAPACITY
    requires a + HEADER + needed !in blocks
    ensures Chained(Split(blocks, a, needed), hi)
  {
    var after := Split(blocks, a, needed);
    var rest := a + HEADER + needed;
    forall b {:trigger After(after, b)} | b in after ensures After(after, b) == hi || After(after, b) in after {
      if b == a {
        assert After(after, a) == rest;
      } else if b == rest {
        assert After(after, rest) == After(blocks, a);
      } else {
        assert After(after, b) == After(blocks, b);
      }
    }
  }

  lemma SplitTiled(blocks: Blocks, hi: nat, a: nat, needed: nat)
    requires Tiled(blocks, BASE, hi) && a in blocks
    requires needed >= MIN_CAPACITY && blocks[a].cap >= needed + HEADER + MIN_CAPACITY
    ensures a + HEADER + needed !in blocks
    ensures Tiled(Split(blocks, a, needed), BASE, hi)
  {
    SplitInRange(blocks, hi, a, needed);
    SplitApart(blocks, a, needed);
    SplitChained(blocks, hi, a, needed);
  }

  lemma ExtendTiled(blocks: Blocks, hi: nat, b: Block)
    requires Tiled(blocks, BASE, hi) && b.cap >= MIN_CAPACITY
    ensures hi !in blocks
    ensures Tiled(blocks[hi := b], BASE, hi + HEADER + b.cap)
  {
    var after := blocks[hi := b];
    forall c {:trigger After(after, c)} | c in after
      ensures After(after, c) == hi + HEADER + b.cap || After(after, c) in after
    {
      if c != hi {
        assert After(after, c) == After(blocks, c);
      }
    }
  }

  lemma DropLastTiled(blocks: Blocks, hi: nat, a: nat)
    requires Tiled(blocks, BASE, hi) && a in blocks && After(blocks, a) == hi
    ensures Tiled(blocks - {a}, BASE, a)
  {
    var after := blocks - {a};
    forall c {:trigger After(after, c)} | c in after ensures After(after, c) == a || After(after, c) in after {
      assert After(after, c) == After(blocks, c);
    }
    if a != BASE {
      assert BASE in after;
    }
  }

  /** The cursor is always a multiple of 16. */
  lemma CursorAligned(blocks: Blocks, lo: nat, hi: nat)
    requires Tiled(blocks, lo, hi) && Aligned(blocks) && lo % 16 == 0
    ensures hi % 16 == 0
    decreases hi - lo
  {
    if lo != hi {
      RestTiled(blocks, lo, hi);
      CursorAligned(blocks - {lo}, After(blocks, lo), hi);
    }
  }

  /** Dropping the first block leaves a tiling of what follows it. */
  lemma RestTiled(blocks: Blocks, lo: nat, hi: nat)
    requires Tiled(blocks, lo, hi) && lo != hi
    ensures Tiled(blocks - {lo}, After(blocks, lo), hi)
  {
    var after := blocks - {lo};
    forall c {:trigger After(after, c)} | c in after ensures After(after, c) == hi || After(after, c) in after {
      assert After(after, c) == After(blocks, c);
    }
  }

  // ---------------------------------------------------------------- consequences of the tiling

  /** Every byte below the cursor belongs to exactly one block. */
  lemma {:induction false} EveryByteInOneBlock(blocks: Blocks, lo: nat, hi: nat, x: nat) returns (owner: nat)
    requires Tiled(blocks, lo, hi) && lo <= x < hi
    ensures owner in blocks && owner <= x < After(blocks, owner)
    ensures forall a :: a in blocks && a <= x < a + HEADER + blocks[a].cap ==> a == owner
    decreases hi - lo
  {
    if x < After(blocks, lo) {
      owner := lo;
    } else {
      RestTiled(blocks, lo, hi);
      owner := EveryByteInOneBlock(blocks - {lo}, After(blocks, lo), hi, x);
    }
  }

  /** Headers and capacities together account for every byte below the cursor. */
  lemma {:induction false} SpanIsExact(blocks: Blocks, lo: nat, hi: nat)
    requires Tiled(blocks, lo, hi)
    ensures Total(blocks, Span) == hi - lo
    decreases hi - lo
  {
    if lo == hi {
      assert blocks == map[];
    } else {
      RestTiled(blocks, lo, hi);
      TotalDrop(blocks, Span, lo);
      SpanIsExact(blocks - {lo}, After(blocks, lo), hi);
    }
  }

  lemma {:induction false} SpanSplits(blocks: Blocks)
    requires NothingPending(blocks)
    ensures Total(blocks, Span) ==
            Total(blocks, LiveCapacity) + Total(blocks, FreeCapacity) + HEADER * Total(blocks, AllBlocks)
    decreases |blocks|
  {
    if a :| a in blocks {
      assert |blocks - {a}| < |blocks| by { assert (blocks - {a}).Keys == blocks.Keys - {a}; }
      TotalRemove(blocks, a);
      SpanSplits(blocks - {a});
    } else {
      assert blocks == map[];
    }
  }

  lemma {:induction false} RequestedFits(blocks: Blocks)
    requires Fitting(blocks)
    ensures Total(blocks, LiveRequested) <= Total(blocks, LiveCapacity)
    decreases |blocks|
  {
    if a :| a in blocks {
      assert |blocks - {a}| < |blocks| by { assert (blocks - {a}).Keys == blocks.Keys - {a}; }
      TotalRemove(blocks, a);
      RequestedFits(blocks - {a});
    } else {
      assert blocks == map[];
    }
  }

  /** The highest block is followed by the cursor. */
  lemma {:induction false} LastBlock(blocks: Blocks, lo: nat, hi: nat) returns (last: nat)
    requires Tiled(blocks, lo, hi) && lo != hi
    ensures last in blocks && After(blocks, last) == hi
    decreases hi - lo
  {
    if After(blocks, lo) == hi {
      last := lo;
    } else {
      RestTiled(blocks, lo, hi);
      last := LastBlock(blocks - {lo}, After(blocks, lo), hi);
    }
  }

  // ---------------------------------------------------------------- words and lists in memory

  ghost predicate Mapped(mem: Memory)
  {
    forall x :: BASE <= x < END ==> x in mem
  }

  /** What the words of block `a` hold for its kind. */
  ghost predicate BlockWords(mem: Memory, a: nat, b: Block)
    requires Mapped(mem) && BASE <= a && b.cap >= MIN_CAPACITY && a + HEADER + b.cap <= END
  {
    && mem[a + 8] == b.cap
    && match b.kind
       case Live(requested, site) =>
         mem[a] == requested && mem[a + 4] == LIVE_MAGIC && mem[a + 12] == site
       case Free =>
         && mem[a + 4] == FREE_MAGIC
         && mem[a + HEADER + b.cap - 8] == FREE_MAGIC && mem[a + HEADER + b.cap - 4] == b.cap
       case Pending => mem[a + 4] == FREE_MAGIC
  }

  /** A live block was asked for by someone and can hold what was asked for. */
  ghost predicate Fitting(blocks: Blocks)
  {
    forall a :: a in blocks && blocks[a].kind.Live? ==>
      && blocks[a].kind.site != 0
      && 0 < blocks[a].kind.requested <= WORD_LIMIT - 32
      && CapacityForSize(blocks[a].kind.requested) <= blocks[a].cap
  }

  ghost predicate Worded(mem: Memory, blocks: Blocks, cursor: nat)
    requires Mapped(mem) && cursor <= END && Tiled(blocks, BASE, cursor)
  {
    forall a :: a in blocks ==> BlockWords(mem, a, blocks[a])
  }

  function LinkAfter(list: seq<nat>, i: nat): nat {
    if i + 1 < |list| then list[i + 1] else 0
  }

  /** `list` is threaded from `head` through the fourth header word of its blocks. */
  ghost predicate Threaded(mem: Memory, head: Word, list: seq<nat>)
  {
    && head == (if list == [] then 0 else list[0])
    && (forall i :: 0 <= i < |list| ==> list[i] + 12 in mem)
    && forall i {:trigger LinkAfter(list, i)} :: 0 <= i < |list| ==> mem[list[i] + 12] == LinkAfter(list, i)
  }

  ghost predicate Distinct(list: seq<nat>)
  {
    forall i, j :: 0 <= i < j < |list| ==> list[i] != list[j]
  }

  /** One bin: its list holds exactly the free blocks of its capacities, each once. */
  ghost predicate BinOk(mem: Memory, head: Word, list: seq<nat>, blocks: Blocks, bin: nat)
  {
    && Threaded(mem, head, list)
    && Distinct(list)
    && (forall i :: 0 <= i < |list| ==>
      list[i] in blocks && blocks[list[i]].kind.Free? && BinFor(blocks[list[i]].cap) == bin)
    && (forall a :: a in blocks && blocks[a].kind.Free? && BinFor(blocks[a].cap) == bin ==> a in list)
  }

  ghost predicate Binned(mem: Memory, bins: seq<Word>, lists: seq<seq<nat>>, blocks: Blocks)
  {
    && |bins| == BINS && |lists| == BINS
    && forall bin :: 0 <= bin < BINS ==> BinOk(mem, bins[bin], lists[bin], blocks, bin)
  }

  /** A list of distinct idle blocks is no longer than the number of idle blocks, so a walk
      bounded by that number reaches its end. */
  lemma {:induction false} ListFits(list: seq<nat>, blocks: Blocks)
    requires Distinct(list)
    requires forall i :: 0 <= i < |list| ==> list[i] in blocks && !blocks[list[i]].kind.Live?
    ensures |list| <= Total(blocks, IdleBlocks)
    decreases |list|
  {
    if list != [] {
      TotalDrop(blocks, IdleBlocks, list[0]);
      ListFits(list[1..], blocks - {list[0]});
    }
  }

  /** Payload bytes of live blocks are the same words in both memories. */
  ghost predicate SamePayloads(before: Memory, after: Memory, blocks: Blocks)
  {
    forall a, x ::
      a in blocks && blocks[a].kind.Live? && a + HEADER <= x < a + HEADER + blocks[a].cap && x in before ==>
        x in after && after[x] == before[x]
  }

  ghost predicate LiveKept(blocks: Blocks, blocks': Blocks)
  {
    forall a :: a in blocks && blocks[a].kind.Live? ==> a in blocks' && blocks'[a] == blocks[a]
  }

  lemma SameMemory(mem: Memory, blocks: Blocks)
    ensures SamePayloads(mem, mem, blocks)
  {
  }

  lemma PayloadsChain(mem0: Memory, mem1: Memory, mem2: Memory, blocks: Blocks, blocks': Blocks)
    requires SamePayloads(mem0, mem1, blocks) && SamePayloads(mem1, mem2, blocks') && LiveKept(blocks, blocks')
    ensures SamePayloads(mem0, mem2, blocks)
  {
  }

  // ---------------------------------------------------------------- edits of words and lists

  ghost predicate SameOutside(before: Memory, after: Memory, lo: nat, hi: nat)
  {
    forall x :: x in before && !(lo <= x < hi) ==> x in after && after[x] == before[x]
  }

  // ---------------------------------------------------------------- tags of freed headers

  /** Second words of headers that say "free" go on saying so, except between two addresses. */
  ghost predicate TagsKept(before: Memory, after: Memory, lo: nat, hi: nat)
  {
    forall x :: x in before && x % 16 == 4 && !(lo <= x < hi) && before[x] == FREE_MAGIC ==>
      x in after && after[x] == FREE_MAGIC
  }

  lemma TagsSame(mem: Memory)
    ensures TagsKept(mem, mem, 0, 0)
  {
  }

  lemma TagsChain(a: Memory, b: Memory, c: Memory, lo: nat, hi: nat)
    requires TagsKept(a, b, lo, hi) && TagsKept(b, c, lo, hi)
    ensures TagsKept(a, c, lo, hi)
  {
  }

  lemma TagsWiden(a: Memory, b: Memory, lo: nat, hi: nat, lo': nat, hi': nat)
    requires TagsKept(a, b, lo, hi) && (lo == hi || (lo' <= lo && hi <= hi'))
    ensures TagsKept(a, b, lo', hi')
  {
  }

  /** A write to any other word, or of the tag itself, keeps the tags. */
  lemma TagSet(mem: Memory, x: nat, v: Word)
    requires x % 16 != 4 || v == FREE_MAGIC
    ensures TagsKept(mem, mem[x := v], 0, 0)
  {
  }

  lemma OutsideWiden(before: Memory, after: Memory, lo: nat, hi: nat, lo': nat, hi': nat)
    requires SameOutside(before, after, lo, hi) && lo' <= lo && hi <= hi'
    ensures SameOutside(before, after, lo', hi')
  {
  }

  lemma OutsideTags(before: Memory, after: Memory, lo: nat, hi: nat)
    requires SameOutside(before, after, lo, hi)
    ensures TagsKept(before, after, lo, hi)
  {
  }

  lemma TagStays(before: Memory, after: Memory, x: nat)
    requires TagsKept(before, after, 0, 0) && x in before && x % 16 == 4 && before[x] == FREE_MAGIC
    ensures x in after && after[x] == FREE_MAGIC
  {
  }

  /** Edits inside one block leave the words of every other block alone. */
  lemma EditInside(before: Memory, after: Memory, blocks: Blocks, cursor: nat, a: nat)
    requires Mapped(before) && Mapped(after) && cursor <= END && Tiled(blocks, BASE, cursor) && a in blocks
    requires Worded(before, blocks, cursor)
    requires SameOutside(before, after, a, After(blocks, a))
    ensures forall b :: b in blocks && b != a ==> BlockWords(after, b, blocks[b])
  {
    forall b | b in blocks && b != a ensures BlockWords(after, b, blocks[b]) {
      var B := blocks[b];
      assert BlockWords(before, b, B);
      assert b + HEADER + B.cap <= a || After(blocks, a) <= b;
    }
  }

  lemma EditIdle(before: Memory, after: Memory, blocks: Blocks, cursor: nat, a: nat)
    requires Tiled(blocks, BASE, cursor) && a in blocks && !blocks[a].kind.Live?
    requires SameOutside(before, after, a, After(blocks, a))
    ensures SamePayloads(before, after, blocks)
  {
  }

  ghost predicate NoFreeBefore(blocks: Blocks, a: nat)
  {
    forall p {:trigger After(blocks, p)} :: p in blocks && After(blocks, p) == a ==> !blocks[p].kind.Free?
  }

  /** The neighbours of `a` exist on its right and are not free on either side. */
  ghost predicate Insulated(blocks: Blocks, a: nat)
    requires a in blocks
  {
    && After(blocks, a) in blocks && !blocks[After(blocks, a)].kind.Free?
    && NoFreeBefore(blocks, a)
  }

  lemma FreeSeparated(blocks: Blocks, a: nat)
    requires a in blocks && Separated(blocks) && Insulated(blocks, a)
    ensures Separated(blocks[a := Block(blocks[a].cap, Free)])
  {
    var after := blocks[a := Block(blocks[a].cap, Free)];
    forall b {:trigger After(after, b)} | b in after && after[b].kind.Free?
      ensures After(after, b) in after && !after[After(after, b)].kind.Free?
    {
      assert After(after, b) == After(blocks, b);
    }
  }

  /** Blocks that stop being free, in place, cannot create two free neighbours. */
  lemma UnfreeSeparated(blocks: Blocks, a: nat, kind: Kind)
    requires a in blocks && Separated(blocks) && !kind.Free?
    ensures Separated(blocks[a := Block(blocks[a].cap, kind)])
  {
    var after := blocks[a := Block(blocks[a].cap, kind)];
    forall b {:trigger After(after, b)} | b in after && after[b].kind.Free?
      ensures After(after, b) in after && !after[After(after, b)].kind.Free?
    {
      assert After(after, b) == After(blocks, b);
    }
  }

  lemma PushBin(before: Memory, after: Memory, head: Word, list: seq<nat>, blocks: Blocks, bin: nat, a: Word)
    requires BinOk(before, head, list, blocks, bin)
    requires a in blocks && blocks[a].kind.Pending? && BinFor(blocks[a].cap) == bin && a != 0
    requires a + 12 in after && after[a + 12] == head
    requires forall b :: b in list && b + 12 in before ==> b + 12 in after && after[b + 12] == before[b + 12]
    ensures BinOk(after, a, [a as nat] + list, blocks[a := Block(blocks[a].cap, Free)], bin)
  {
    var list' := [a as nat] + list;
    assert LinkAfter(list', 0) == head;
    forall i {:trigger LinkAfter(list', i)} | 0 <= i < |list'|
      ensures list'[i] + 12 in after && after[list'[i] + 12] == LinkAfter(list', i)
    {
      if i > 0 {
        assert LinkAfter(list', i) == LinkAfter(list, i - 1);
        assert list'[i] == list[i - 1] && list[i - 1] in list && list[i - 1] + 12 in before;
      }
    }
    assert a !in list;
    assert forall b :: b in list ==> b in list';
    assert list'[0] == a;
  }

  /** A bin that an edit passes by. */
  lemma KeepBin(before: Memory, after: Memory, head: Word, list: seq<nat>, blocks: Blocks, blocks': Blocks, bin: nat)
    requires BinOk(before, head, list, blocks, bin)
    requires forall a :: a in list ==> a in blocks' && blocks'[a] == blocks[a]
    requires forall a :: a in list && a + 12 in before ==> a + 12 in after && after[a + 12] == before[a + 12]
    requires forall a :: a in blocks' && blocks'[a].kind.Free? && BinFor(blocks'[a].cap) == bin ==>
             a in blocks && blocks[a] == blocks'[a]
    ensures BinOk(after, head, list, blocks', bin)
  {
    forall i {:trigger LinkAfter(list, i)} | 0 <= i < |list|
      ensures list[i] + 12 in after && after[list[i] + 12] == LinkAfter(list, i)
    {
      assert list[i] in list && list[i] + 12 in before;
    }
    forall i | 0 <= i < |list| ensures list[i] in blocks' && blocks'[list[i]] == blocks[list[i]] {
      assert list[i] in list;
    }
  }

  lemma PushBinned(before: Memory, after: Memory, bins: seq<Word>, lists: seq<seq<nat>>, blocks: Blocks, a: Word)
    requires Binned(before, bins, lists, blocks)
    requires a in blocks && blocks[a].kind.Pending? && a != 0
    requires a + 12 in after && after[a + 12] == bins[BinFor(blocks[a].cap)]
    requires forall b :: b in blocks && b != a && b + 12 in before ==>
             b + 12 in after && after[b + 12] == before[b + 12]
    ensures var bin := BinFor(blocks[a].cap);
            Binned(after, bins[bin := a], lists[bin := [a as nat] + lists[bin]],
              blocks[a := Block(blocks[a].cap, Free)])
  {
    var bin := BinFor(blocks[a].cap);
    var bins', lists', blocks' := bins[bin := a], lists[bin := [a as nat] + lists[bin]],
      blocks[a := Block(blocks[a].cap, Free)];
    forall k | 0 <= k < BINS ensures BinOk(after, bins'[k], lists'[k], blocks', k) {
      assert BinOk(before, bins[k], lists[k], blocks, k);
      if k == bin {
        PushBin(before, after, bins[k], lists[k], blocks, k, a);
      } else {
        KeepBin(before, after, bins[k], lists[k], blocks, blocks', k);
      }
    }
  }

  /** What the link of entry `j` must hold once entry `i` is skipped. */
  function LinkSkipping(list: seq<nat>, i: nat, j: nat): nat
    requires i < |list|
  {
    if j + 1 == i then LinkAfter(list, i) else LinkAfter(list, j)
  }

  ghost predicate Skips(mem: Memory, list: seq<nat>, i: nat)
    requires i < |list|
  {
    && (forall j :: 0 <= j < |list| ==> list[j] + 12 in mem)
    && forall j {:trigger LinkSkipping(list, i, j)} :: 0 <= j < |list| && j != i ==>
      mem[list[j] + 12] == LinkSkipping(list, i, j)
  }

  function Without(list: seq<nat>, i: nat): (rest: seq<nat>)
    requires i < |list|
    ensures |rest| == |list| - 1
    ensures forall j :: 0 <= j < |rest| ==> rest[j] == list[if j < i then j else j + 1]
  {
    list[..i] + list[i + 1..]
  }

  lemma UnlinkThreaded(mem: Memory, head: Word, list: seq<nat>, i: nat)
    requires i < |list| && Skips(mem, list, i)
    requires head == if i == 0 then LinkAfter(list, 0) else list[0]
    ensures Threaded(mem, head, Without(list, i))
  {
    var list' := Without(list, i);
    forall j {:trigger LinkAfter(list', j)} | 0 <= j < |list'| ensures mem[list'[j] + 12] == LinkAfter(list', j) {
      assert LinkAfter(list', j) == LinkSkipping(list, i, if j < i then j else j + 1);
    }
  }

  lemma UnlinkBin(before: Memory, after: Memory, head: Word, head': Word, list: seq<nat>, blocks: Blocks, bin: nat,
      i: nat)
    requires BinOk(before, head, list, blocks, bin) && i < |list|
    requires head' == if i == 0 then LinkAfter(list, 0) else head
    requires Skips(after, list, i)
    ensures BinOk(after, head', Without(list, i), blocks[list[i] := Block(blocks[list[i]].cap, Pending)], bin)
  {
    UnlinkThreaded(after, head', list, i);
    WithoutMembers(list, i);
  }

  lemma WithoutMembers(list: seq<nat>, i: nat)
    requires i < |list| && Distinct(list)
    ensures Distinct(Without(list, i))
    ensures forall b :: b in list && b != list[i] ==> b in Without(list, i)
    ensures forall j :: 0 <= j < |list| - 1 ==> Without(list, i)[j] in list && Without(list, i)[j] != list[i]
  {
    forall b | b in list && b != list[i] ensures b in Without(list, i) {
      var j :| 0 <= j < |list| && list[j] == b;
      assert Without(list, i)[if j < i then j else j - 1] == b;
    }
  }

  /** Unlinking position `i` of a bin's list: the word before it skips over it. */
  lemma UnlinkBinned(before: Memory, after: Memory, bins: seq<Word>, bins': seq<Word>, lists: seq<seq<nat>>,
      blocks: Blocks, bin: nat, i: nat)
    requires Binned(before, bins, lists, blocks) && bin < BINS && i < |lists[bin]| && |bins'| == BINS
    requires forall k :: 0 <= k < BINS && k != bin ==> bins'[k] == bins[k]
    requires bins'[bin] == if i == 0 then LinkAfter(lists[bin], 0) else bins[bin]
    requires Skips(after, lists[bin], i)
    requires forall a :: a in blocks && a !in lists[bin] && a + 12 in before ==>
             a + 12 in after && after[a + 12] == before[a + 12]
    ensures lists[bin][i] in blocks
    ensures Binned(after, bins', lists[bin := Without(lists[bin], i)],
                   blocks[lists[bin][i] := Block(blocks[lists[bin][i]].cap, Pending)])
  {
    assert BinOk(before, bins[bin], lists[bin], blocks, bin);
    var a := lists[bin][i];
    var lists', blocks' := lists[bin := Without(lists[bin], i)], blocks[a := Block(blocks[a].cap, Pending)];
    forall k | 0 <= k < BINS ensures BinOk(after, bins'[k], lists'[k], blocks', k) {
      assert BinOk(before, bins[k], lists[k], blocks, k);
      if k == bin {
        UnlinkBin(before, after, bins[k], bins'[k], lists[k], blocks, k, i);
      } else {
        KeepBin(before, after, bins[k], lists[k], blocks, blocks', k);
      }
    }
  }

  /** Lists do not notice edits that leave link words, and the set of free blocks, alone. */
  lemma KeepBinned(before: Memory, after: Memory, bins: seq<Word>, lists: seq<seq<nat>>, blocks: Blocks,
      blocks': Blocks)
    requires Binned(before, bins, lists, blocks)
    requires forall a :: a in blocks && blocks[a].kind.Free? ==> a in blocks' && blocks'[a] == blocks[a]
    requires forall a :: a in blocks && blocks[a].kind.Free? && a + 12 in before ==>
             a + 12 in after && after[a + 12] == before[a + 12]
    requires forall a :: a in blocks' && blocks'[a].kind.Free? ==> a in blocks && blocks[a] == blocks'[a]
    ensures Binned(after, bins, lists, blocks')
  {
    forall k | 0 <= k < BINS ensures BinOk(after, bins[k], lists[k], blocks', k) {
      assert BinOk(before, bins[k], lists[k], blocks, k);
      KeepBin(before, after, bins[k], lists[k], blocks, blocks', k);
    }
  }

  // ---------------------------------------------------------------- allocation sites

  datatype SiteStats = SiteStats(site: Word, liveBytes: nat)

  /** Index of the first entry for `site`, or the table's length. */
  function SiteAt(sites: seq<SiteStats>, site: Word): (i: nat)
    ensures i <= |sites| && (i < |sites| ==> sites[i].site == site)
    ensures forall j :: 0 <= j < i ==> sites[j].site != site
  {
    if sites == [] || sites[0].site == site then 0 else 1 + SiteAt(sites[1..], site)
  }

  /** The table once `site` has gone from `from` to `to` live bytes in one block. */
  function Moved(sites: seq<SiteStats>, site: Word, from: nat, to: nat, create: bool): seq<SiteStats>
  {
    var i := SiteAt(sites, site);
    if i < |sites| then
      sites[i := SiteStats(site, if sites[i].liveBytes + to >= from then sites[i].liveBytes + to - from else 0)]
    else if create && |sites| < SITES then sites + [SiteStats(site, to)]
    else sites
  }

  /** Each tracked site knows its live bytes; a site is untracked only once the table is full. */
  ghost predicate Booked(sites: seq<SiteStats>, blocks: Blocks)
  {
    && |sites| <= SITES
    && (forall i, j :: 0 <= i < j < |sites| ==> sites[i].site != sites[j].site)
    && (forall i :: 0 <= i < |sites| ==> sites[i].liveBytes == Total(blocks, SiteBytes(sites[i].site)))
    && (forall a :: a in blocks && blocks[a].kind.Live? ==> Tracked(sites, blocks[a].kind.site) || |sites| == SITES)
  }

  ghost predicate Tracked(sites: seq<SiteStats>, site: Word)
  {
    exists i :: 0 <= i < |sites| && sites[i].site == site
  }

  lemma {:induction false} UntrackedSiteIsEmpty(blocks: Blocks, site: Word)
    requires forall a :: a in blocks && blocks[a].kind.Live? ==> blocks[a].kind.site != site
    ensures Total(blocks, SiteBytes(site)) == 0
    decreases |blocks|
  {
    if a :| a in blocks {
      assert |blocks - {a}| < |blocks| by { assert (blocks - {a}).Keys == blocks.Keys - {a}; }
      TotalRemove(blocks, a);
      UntrackedSiteIsEmpty(blocks - {a}, site);
    } else {
      assert blocks == map[];
    }
  }

  function BytesOf(blocks: Blocks, a: nat, site: Word): nat {
    if a in blocks then Weight(SiteBytes(site), blocks[a]) else 0
  }

  /** A block of `site` appears, disappears or changes size: the table follows exactly. */
  lemma SiteMoves(sites: seq<SiteStats>, blocks: Blocks, a: nat, b: Block, site: Word, create: bool)
    requires Booked(sites, blocks)
    requires a in blocks && blocks[a].kind.Live? ==> blocks[a].kind.site == site
    requires b.kind.Live? ==> b.kind.site == site
    requires !create ==> a in blocks && blocks[a].kind.Live?
    ensures Booked(Moved(sites, site, BytesOf(blocks, a, site), Weight(SiteBytes(site), b), create), blocks[a := b])
    ensures SiteAt(sites, site) < |sites| ==> sites[SiteAt(sites, site)].liveBytes >= BytesOf(blocks, a, site)
  {
    var blocks' := blocks[a := b];
    var from, to := BytesOf(blocks, a, site), Weight(SiteBytes(site), b);
    var sites' := Moved(sites, site, from, to, create);
    TotalPut(blocks, a, b);
    if a in blocks { TotalDrop(blocks, SiteBytes(site), a); }
    var i := SiteAt(sites, site);
    if i == |sites| < |sites'| {
      UntrackedSiteIsEmpty(blocks, site);
    }
    assert forall c :: c in blocks' && blocks'[c].kind.Live? ==>
      Tracked(sites', blocks'[c].kind.site) || |sites'| == SITES by {
      forall c | c in blocks' && blocks'[c].kind.Live? ensures Tracked(sites', blocks'[c].kind.site)
        || |sites'| == SITES {
        var s := blocks'[c].kind.site;
        if s == site {
          if i < |sites'| { assert sites'[i].site == site; }
        } else if Tracked(sites, s) {
          var j :| 0 <= j < |sites| && sites[j].site == s;
          assert sites'[j].site == s;
        }
      }
    }
  }

  /** Changes among idle blocks leave the site table right. */
  lemma IdleBooked(sites: seq<SiteStats>, blocks: Blocks, blocks': Blocks)
    requires Booked(sites, blocks)
    requires forall site :: Total(blocks', SiteBytes(site)) == Total(blocks, SiteBytes(site))
    requires forall a :: a in blocks' && blocks'[a].kind.Live? ==> a in blocks && blocks[a] == blocks'[a]
    ensures Booked(sites, blocks')
  {
  }

  function FreeBytes(b: Block): nat {
    Weight(FreeCapacity, b)
  }

  ghost predicate SameLiveTotals(blocks: Blocks, blocks': Blocks)
  {
    && Total(blocks', LiveBlocks) == Total(blocks, LiveBlocks)
    && Total(blocks', LiveRequested) == Total(blocks, LiveRequested)
    && Total(blocks', LiveCapacity) == Total(blocks, LiveCapacity)
  }

  /** An idle block that changes kind, or is handed out of nothing, moves only idle totals. */
  lemma RekindBooks(sites: seq<SiteStats>, blocks: Blocks, a: nat, kind: Kind)
    requires Booked(sites, blocks) && a in blocks && !blocks[a].kind.Live? && !kind.Live?
    ensures var blocks' := blocks[a := Block(blocks[a].cap, kind)];
            && Booked(sites, blocks') && SameLiveTotals(blocks, blocks')
            && Total(blocks', FreeCapacity) + FreeBytes(blocks[a]) ==
              Total(blocks, FreeCapacity) + FreeBytes(blocks'[a])
            && Total(blocks', IdleBlocks) == Total(blocks, IdleBlocks)
            && Total(blocks, FreeCapacity) >= FreeBytes(blocks[a])
  {
    var blocks' := blocks[a := Block(blocks[a].cap, kind)];
    TotalPut(blocks, a, Block(blocks[a].cap, kind));
    TotalDrop(blocks, FreeCapacity, a);
    IdleBooked(sites, blocks, blocks');
  }

  /** Two idle blocks become one, or the last idle block disappears. */
  lemma MergeBooks(sites: seq<SiteStats>, blocks: Blocks, a: nat, next: nat)
    requires Booked(sites, blocks) && a in blocks && next in blocks && a != next
    requires blocks[a].kind.Pending? && blocks[next].kind.Pending?
    ensures var blocks' := Merged(blocks, a, next);
            && Booked(sites, blocks') && SameLiveTotals(blocks, blocks')
            && Total(blocks', FreeCapacity) == Total(blocks, FreeCapacity)
            && Total(blocks', IdleBlocks) <= Total(blocks, IdleBlocks)
  {
    TotalRemove(blocks, next);
    TotalPut(blocks - {next}, a, Merged(blocks, a, next)[a]);
    IdleBooked(sites, blocks, Merged(blocks, a, next));
  }

  lemma DropBooks(sites: seq<SiteStats>, blocks: Blocks, a: nat)
    requires Booked(sites, blocks) && a in blocks && blocks[a].kind.Pending?
    ensures var blocks' := blocks - {a};
            && Booked(sites, blocks') && SameLiveTotals(blocks, blocks')
            && Total(blocks', FreeCapacity) == Total(blocks, FreeCapacity)
            && Total(blocks', IdleBlocks) <= Total(blocks, IdleBlocks)
  {
    TotalRemove(blocks, a);
    IdleBooked(sites, blocks, blocks - {a});
  }

  lemma SplitBooks(sites: seq<SiteStats>, blocks: Blocks, a: nat, needed: nat)
    requires Booked(sites, blocks) && a in blocks && blocks[a].kind.Pending?
    requires blocks[a].cap >= needed + HEADER + MIN_CAPACITY && a + HEADER + needed !in blocks
    ensures var blocks' := Split(blocks, a, needed);
            && Booked(sites, blocks') && SameLiveTotals(blocks, blocks')
            && Total(blocks', FreeCapacity) == Total(blocks, FreeCapacity)
            && Total(blocks', IdleBlocks) == Total(blocks, IdleBlocks) + 1
  {
    var once := blocks[a := Block(needed, Pending)];
    TotalPut(blocks, a, Block(needed, Pending));
    TotalPut(once, a + HEADER + needed, Block(blocks[a].cap - needed - HEADER, Pending));
    IdleBooked(sites, blocks, Split(blocks, a, needed));
  }

  /** A block that is new, or off every list, goes live. */
  lemma AdoptBooks(sites: seq<SiteStats>, blocks: Blocks, a: nat, b: Block)
    requires Booked(sites, blocks) && b.kind.Live?
    requires a in blocks ==> blocks[a].kind.Pending?
    ensures var blocks' := blocks[a := b];
            && Booked(Moved(sites, b.kind.site, 0, b.kind.requested, true), blocks')
            && Total(blocks', LiveBlocks) == Total(blocks, LiveBlocks) + 1
            && Total(blocks', LiveRequested) == Total(blocks, LiveRequested) + b.kind.requested
            && Total(blocks', LiveCapacity) == Total(blocks, LiveCapacity) + b.cap
            && Total(blocks', FreeCapacity) == Total(blocks, FreeCapacity)
            && Total(blocks', IdleBlocks) <= Total(blocks, IdleBlocks)
  {
    TotalPut(blocks, a, b);
    if a in blocks { TotalDrop(blocks, IdleBlocks, a); }
    SiteMoves(sites, blocks, a, b, b.kind.site, true);
  }

  /** A live block goes idle; none of the subtractions this takes can go below zero. */
  lemma ReleaseBooks(sites: seq<SiteStats>, blocks: Blocks, a: nat)
    requires Booked(sites, blocks) && a in blocks && blocks[a].kind.Live?
    ensures var b, blocks' := blocks[a], blocks[a := Block(blocks[a].cap, Pending)];
            && Booked(Moved(sites, b.kind.site, b.kind.requested, 0, false), blocks')
            && Total(blocks, LiveBlocks) == Total(blocks', LiveBlocks) + 1
            && Total(blocks, LiveRequested) == Total(blocks', LiveRequested) + b.kind.requested
            && Total(blocks, LiveCapacity) == Total(blocks', LiveCapacity) + b.cap
            && Total(blocks', FreeCapacity) == Total(blocks, FreeCapacity)
            && Total(blocks', IdleBlocks) == Total(blocks, IdleBlocks) + 1
            && SiteCovers(sites, b.kind.site, b.kind.requested)
  {
    TotalPut(blocks, a, Block(blocks[a].cap, Pending));
    SiteMoves(sites, blocks, a, Block(blocks[a].cap, Pending), blocks[a].kind.site, false);
  }

  ghost predicate SiteCovers(sites: seq<SiteStats>, site: Word, bytes: nat) {
    SiteAt(sites, site) < |sites| ==> sites[SiteAt(sites, site)].liveBytes >= bytes
  }

  /** A live block changes size, in place or upwards. */
  lemma ResizeBooks(sites: seq<SiteStats>, blocks: Blocks, a: nat, cap: nat, requested: Word)
    requires Booked(sites, blocks) && a in blocks && blocks[a].kind.Live? && cap >= blocks[a].cap
    ensures var b, blocks' := blocks[a], blocks[a := Block(cap, Live(requested, blocks[a].kind.site))];
            && Booked(Moved(sites, b.kind.site, b.kind.requested, requested, false), blocks')
            && Total(blocks', LiveBlocks) == Total(blocks, LiveBlocks)
            && Total(blocks', LiveRequested) + b.kind.requested == Total(blocks, LiveRequested) + requested
            && Total(blocks', LiveCapacity) + b.cap == Total(blocks, LiveCapacity) + cap
            && Total(blocks', FreeCapacity) == Total(blocks, FreeCapacity)
            && Total(blocks', IdleBlocks) == Total(blocks, IdleBlocks)
            && Total(blocks, LiveRequested) >= b.kind.requested
            && SiteCovers(sites, b.kind.site, b.kind.requested)
  {
    TotalPut(blocks, a, Block(cap, Live(requested, blocks[a].kind.site)));
    TotalDrop(blocks, LiveRequested, a);
    SiteMoves(sites, blocks, a, Block(cap, Live(requested, blocks[a].kind.site)), blocks[a].kind.site, false);
  }

  // ---------------------------------------------------------------- the whole heap

  ghost predicate Shape(mem: Memory, bins: seq<Word>, lists: seq<seq<nat>>, blocks: Blocks, cursor: nat)
  {
    && Mapped(mem) && BASE <= cursor <= END
    && Tiled(blocks, BASE, cursor) && Aligned(blocks) && Separated(blocks) && Fitting(blocks)
    && Worded(mem, blocks, cursor)
    && Binned(mem, bins, lists, blocks)
  }

  /** The words that change when list entry `i` is skipped: the link that led to it. */
  function LinkWritten(mem: Memory, list: seq<nat>, i: nat): Memory
    requires i < |list| && (LinkAfter(list, i) < WORD_LIMIT)
  {
    if i == 0 then mem else mem[list[i - 1] + 12 := LinkAfter(list, i)]
  }

  lemma UnlinkSkips(mem: Memory, head: Word, list: seq<nat>, blocks: Blocks, cursor: nat, bin: nat, i: nat)
    requires Mapped(mem) && cursor <= END && Tiled(blocks, BASE, cursor)
    requires BinOk(mem, head, list, blocks, bin) && i < |list| && LinkAfter(list, i) < WORD_LIMIT
    ensures Skips(LinkWritten(mem, list, i), list, i)
    ensures forall a :: a in blocks && a !in list ==> LinkWritten(mem, list, i)[a + 12] == mem[a + 12]
  {
    var after := LinkWritten(mem, list, i);
    forall j {:trigger LinkSkipping(list, i, j)} | 0 <= j < |list| && j != i
      ensures after[list[j] + 12] == LinkSkipping(list, i, j)
    {
      assert mem[list[j] + 12] == LinkAfter(list, j);
    }
  }

  lemma IdleSized(blocks: Blocks, h: nat, kind: Kind)
    requires Aligned(blocks) && Fitting(blocks) && h in blocks && !kind.Live?
    ensures Aligned(blocks[h := Block(blocks[h].cap, kind)]) && Fitting(blocks[h := Block(blocks[h].cap, kind)])
  {
  }

  /** Taking a block off its list keeps all words right. */
  lemma OffListWorded(mem: Memory, blocks: Blocks, cursor: nat, h: nat)
    requires Mapped(mem) && cursor <= END && Tiled(blocks, BASE, cursor) && Worded(mem, blocks, cursor)
    requires h in blocks && blocks[h].kind.Free?
    ensures Tiled(blocks[h := Block(blocks[h].cap, Pending)], BASE, cursor)
    ensures Worded(mem, blocks[h := Block(blocks[h].cap, Pending)], cursor)
  {
    RekindTiled(blocks, cursor, h, Pending);
    assert BlockWords(mem, h, blocks[h]);
  }

  /** Rewriting the link word of a free block keeps all words right. */
  lemma LinkWorded(mem: Memory, blocks: Blocks, cursor: nat, p: nat, link: Word)
    requires Mapped(mem) && cursor <= END && Tiled(blocks, BASE, cursor) && Worded(mem, blocks, cursor)
    requires p in blocks && blocks[p].kind.Free?
    ensures Worded(mem[p + 12 := link], blocks, cursor)
    ensures SamePayloads(mem, mem[p + 12 := link], blocks)
  {
    var after := mem[p + 12 := link];
    EditInside(mem, after, blocks, cursor, p);
    assert BlockWords(after, p, blocks[p]) by { assert BlockWords(mem, p, blocks[p]); }
    EditIdle(mem, after, blocks, cursor, p);
  }

  // ---------------------------------------------------------------- walking a list

  ghost function Before(list: seq<nat>, i: nat): nat
    requires i <= |list|
  {
    if i == 0 then 0 else list[i - 1]
  }

  lemma EntryAt(mem: Memory, head: Word, list: seq<nat>, blocks: Blocks, cursor: nat, bin: nat, i: nat)
    requires Mapped(mem) && cursor <= END && Tiled(blocks, BASE, cursor) && Worded(mem, blocks, cursor)
    requires BinOk(mem, head, list, blocks, bin) && i < |list|
    ensures list[i] in blocks && blocks[list[i]].kind.Free? && BinFor(blocks[list[i]].cap) == bin
    ensures list[i] >= BASE && After(blocks, list[i]) <= cursor && blocks[list[i]].cap >= MIN_CAPACITY
    ensures mem[list[i] + 4] == FREE_MAGIC && mem[list[i] + 8] == blocks[list[i]].cap
  {
    assert BlockWords(mem, list[i], blocks[list[i]]);
  }

  lemma ShapeBasics(mem: Memory, bins: seq<Word>, lists: seq<seq<nat>>, blocks: Blocks, cursor: nat)
    requires Shape(mem, bins, lists, blocks, cursor)
    ensures Mapped(mem) && BASE <= cursor <= END && |bins| == BINS && |lists| == BINS
  {
  }

  lemma ShapeCursor(mem: Memory, bins: seq<Word>, lists: seq<seq<nat>>, blocks: Blocks, cursor: nat)
    requires Shape(mem, bins, lists, blocks, cursor)
    ensures cursor % 16 == 0
  {
    hide Worded, Binned, Separated, Fitting, Tiled;
    CursorAligned(blocks, BASE, cursor);
  }

  lemma ShapeAligned(mem: Memory, bins: seq<Word>, lists: seq<seq<nat>>, blocks: Blocks, cursor: nat)
    requires Shape(mem, bins, lists, blocks, cursor)
    ensures Aligned(blocks) && cursor % 16 == 0 && cursor <= END
  {
    ShapeCursor(mem, bins, lists, blocks, cursor);
  }

  lemma ShapeTiled(mem: Memory, bins: seq<Word>, lists: seq<seq<nat>>, blocks: Blocks, cursor: nat)
    requires Shape(mem, bins, lists, blocks, cursor)
    ensures Tiled(blocks, BASE, cursor) && Apart(blocks) && Separated(blocks)
  {
  }

  lemma SplitRestNew(mem: Memory, bins: seq<Word>, lists: seq<seq<nat>>, blocks: Blocks, cursor: nat, a: nat,
      needed: nat)
    requires Shape(mem, bins, lists, blocks, cursor) && a in blocks && blocks[a].cap >= needed + HEADER + MIN_CAPACITY
    ensures a + HEADER + needed !in blocks
  {
    SplitApart(blocks, a, needed);
  }

  /** What list entry `i` of a bin is, and what its words and the link to it hold. */
  lemma EntryFacts(mem: Memory, bins: seq<Word>, lists: seq<seq<nat>>, blocks: Blocks, cursor: nat, bin: nat, i: nat)
    requires Shape(mem, bins, lists, blocks, cursor)
    requires bin < BINS && i < |lists[bin]|
    ensures var h := lists[bin][i];
            && h in blocks && blocks[h].kind.Free? && BinFor(blocks[h].cap) == bin
            && BASE <= h && h % 16 == 0 && After(blocks, h) <= cursor
            && MIN_CAPACITY <= blocks[h].cap && blocks[h].cap % 16 == 0
            && h + 4 in mem && h + 8 in mem && h + 12 in mem
            && mem[h + 4] == FREE_MAGIC && mem[h + 8] == blocks[h].cap && mem[h + 12] == LinkAfter(lists[bin], i)
  {
    var list := lists[bin];
    assert BinOk(mem, bins[bin], list, blocks, bin);
    EntryAt(mem, bins[bin], list, blocks, cursor, bin, i);
    assert mem[list[i] + 12] == LinkAfter(list, i);
  }

  lemma HeadFacts(mem: Memory, bins: seq<Word>, lists: seq<seq<nat>>, blocks: Blocks, cursor: nat, bin: nat)
    requires Shape(mem, bins, lists, blocks, cursor) && bin < BINS
    ensures bins[bin] == if lists[bin] == [] then 0 else lists[bin][0]
  {
    assert BinOk(mem, bins[bin], lists[bin], blocks, bin);
  }

  /** Following `i` links from the head of a bin leads to its entry `i`. */
  lemma LinkFacts(mem: Memory, bins: seq<Word>, lists: seq<seq<nat>>, blocks: Blocks, cursor: nat, bin: nat, i: nat)
    requires Shape(mem, bins, lists, blocks, cursor)
    requires bin < BINS && i <= |lists[bin]|
    ensures i == 0 || (BASE <= Before(lists[bin], i) && Before(lists[bin], i) + HEADER <= cursor)
    ensures i == 0 || Before(lists[bin], i) + 12 in mem
    ensures (if i == 0 then bins[bin] else mem[Before(lists[bin], i) + 12]) ==
            (if i < |lists[bin]| then lists[bin][i] else 0)
  {
    hide Shape;
    if i != 0 {
      EntryFacts(mem, bins, lists, blocks, cursor, bin, i - 1);
    } else {
      HeadFacts(mem, bins, lists, blocks, cursor, bin);
    }
  }

  /** Every free block is somewhere on the list of its bin. */
  lemma FreeIsListed(mem: Memory, bins: seq<Word>, lists: seq<seq<nat>>, blocks: Blocks, cursor: nat, a: nat)
      returns (i: nat)
    requires Shape(mem, bins, lists, blocks, cursor) && a in blocks && blocks[a].kind.Free?
    ensures i < |lists[BinFor(blocks[a].cap)]| && lists[BinFor(blocks[a].cap)][i] == a
  {
    var bin := BinFor(blocks[a].cap);
    assert BinOk(mem, bins[bin], lists[bin], blocks, bin);
    i :| 0 <= i < |lists[bin]| && lists[bin][i] == a;
  }

  lemma ListIsShort(mem: Memory, bins: seq<Word>, lists: seq<seq<nat>>, blocks: Blocks, cursor: nat, bin: nat)
    requires Shape(mem, bins, lists, blocks, cursor) && bin < BINS
    ensures |lists[bin]| <= Total(blocks, IdleBlocks)
  {
    assert BinOk(mem, bins[bin], lists[bin], blocks, bin);
    ListFits(lists[bin], blocks);
  }

  /** The words of a block, read back from its kind. */
  lemma BlockFacts(mem: Memory, bins: seq<Word>, lists: seq<seq<nat>>, blocks: Blocks, cursor: nat, a: nat)
    requires Shape(mem, bins, lists, blocks, cursor) && a in blocks
    ensures BASE <= a && a % 16 == 0 && After(blocks, a) <= cursor <= END
    ensures MIN_CAPACITY <= blocks[a].cap && blocks[a].cap % 16 == 0
    ensures Mapped(mem) && BlockWords(mem, a, blocks[a])
    ensures blocks[a].kind.Live? ==>
              && blocks[a].kind.site != 0 && 0 < blocks[a].kind.requested <= WORD_LIMIT - 32
              && CapacityForSize(blocks[a].kind.requested) <= blocks[a].cap
    ensures After(blocks, a) == cursor || After(blocks, a) in blocks
  {
  }

  function HeadWritten(bins: seq<Word>, bin: nat, list: seq<nat>, i: nat): seq<Word>
    requires bin < |bins| && LinkAfter(list, i) < WORD_LIMIT
  {
    if i == 0 then bins[bin := LinkAfter(list, i)] else bins
  }

  lemma UnlinkLists(mem: Memory, bins: seq<Word>, lists: seq<seq<nat>>, blocks: Blocks, cursor: nat, bin: nat, i: nat)
    requires Mapped(mem) && cursor <= END && Tiled(blocks, BASE, cursor) && Binned(mem, bins, lists, blocks)
    requires bin < BINS && i < |lists[bin]|
    ensures lists[bin][i] in blocks && blocks[lists[bin][i]].kind.Free? && LinkAfter(lists[bin], i) < WORD_LIMIT
    ensures i != 0 ==> lists[bin][i - 1] in blocks && blocks[lists[bin][i - 1]].kind.Free?
    ensures var list := lists[bin];
            Binned(LinkWritten(mem, list, i), HeadWritten(bins, bin, list, i),
                   lists[bin := Without(list, i)], blocks[list[i] := Block(blocks[list[i]].cap, Pending)])
  {
    var list := lists[bin];
    assert BinOk(mem, bins[bin], list, blocks, bin);
    UnlinkSkips(mem, bins[bin], list, blocks, cursor, bin, i);
    UnlinkBinned(mem, LinkWritten(mem, list, i), bins, HeadWritten(bins, bin, list, i), lists, blocks, bin, i);
  }

  lemma UnlinkShape(mem: Memory, bins: seq<Word>, lists: seq<seq<nat>>, blocks: Blocks, cursor: nat, bin: nat, i: nat)
    requires Shape(mem, bins, lists, blocks, cursor)
    requires bin < BINS && i < |lists[bin]|
    ensures lists[bin][i] in blocks && blocks[lists[bin][i]].kind.Free? && LinkAfter(lists[bin], i) < WORD_LIMIT
    ensures var list := lists[bin];
            Shape(LinkWritten(mem, list, i), HeadWritten(bins, bin, list, i),
                  lists[bin := Without(list, i)], blocks[list[i] := Block(blocks[list[i]].cap, Pending)], cursor)
    ensures SamePayloads(mem, LinkWritten(mem, lists[bin], i), blocks)
  {
    UnlinkLists(mem, bins, lists, blocks, cursor, bin, i);
    UnlinkRest(mem, lists[bin], blocks, cursor, i);
  }

  lemma UnlinkRest(mem: Memory, list: seq<nat>, blocks: Blocks, cursor: nat, i: nat)
    requires Mapped(mem) && cursor <= END && Tiled(blocks, BASE, cursor) && Worded(mem, blocks, cursor)
    requires Aligned(blocks) && Separated(blocks) && Fitting(blocks)
    requires i < |list| && list[i] in blocks && blocks[list[i]].kind.Free? && LinkAfter(list, i) < WORD_LIMIT
    requires i != 0 ==> list[i - 1] in blocks && blocks[list[i - 1]].kind.Free?
    ensures var after, blocks' := LinkWritten(mem, list, i), blocks[list[i] := Block(blocks[list[i]].cap, Pending)];
            && Mapped(after) && Tiled(blocks', BASE, cursor) && Worded(after, blocks', cursor)
            && Aligned(blocks') && Separated(blocks') && Fitting(blocks')
            && SamePayloads(mem, after, blocks)
  {
    if i != 0 {
      LinkWorded(mem, blocks, cursor, list[i - 1], LinkAfter(list, i));
    }
    OffListWorded(LinkWritten(mem, list, i), blocks, cursor, list[i]);
    IdleSized(blocks, list[i], Pending);
    UnfreeSeparated(blocks, list[i], Pending);
  }

  /** Free blocks keep their links when only block `a`, which is not free, is edited. */
  lemma EditKeepsLinks(before: Memory, after: Memory, blocks: Blocks, cursor: nat, a: nat)
    requires Mapped(before) && Mapped(after) && cursor <= END && Tiled(blocks, BASE, cursor)
    requires a in blocks && !blocks[a].kind.Free? && SameOutside(before, after, a, After(blocks, a))
    ensures forall b :: b in blocks && blocks[b].kind.Free? ==> after[b + 12] == before[b + 12]
  {
  }

  /** The lists survive an edit inside a block that is on none of them. */
  lemma EditBinned(before: Memory, after: Memory, bins: seq<Word>, lists: seq<seq<nat>>, blocks: Blocks,
      blocks': Blocks, cursor: nat, a: nat)
    requires Mapped(before) && Mapped(after) && cursor <= END && Tiled(blocks, BASE, cursor)
    requires Binned(before, bins, lists, blocks)
    requires a in blocks && !blocks[a].kind.Free? && SameOutside(before, after, a, After(blocks, a))
    requires forall b :: b in blocks && blocks[b].kind.Free? ==> b in blocks' && blocks'[b] == blocks[b]
    requires forall b :: b in blocks' && blocks'[b].kind.Free? ==> b in blocks && blocks[b] == blocks'[b]
    ensures Binned(after, bins, lists, blocks')
  {
    EditKeepsLinks(before, after, blocks, cursor, a);
    KeepBinned(before, after, bins, lists, blocks, blocks');
  }

  lemma RekindSized(blocks: Blocks, a: nat, kind: Kind)
    requires Aligned(blocks) && Fitting(blocks) && a in blocks
    requires kind.Live? ==>
             kind.site != 0 && 0 < kind.requested <= WORD_LIMIT - 32 && CapacityForSize(kind.requested) <= blocks[a].cap
    ensures Aligned(blocks[a := Block(blocks[a].cap, kind)]) && Fitting(blocks[a := Block(blocks[a].cap, kind)])
  {
  }

  /** One block that is on no list changes its words and its kind: allocation, release,
      resizing in place and the guest's own writes are all of this form. */
  lemma EditShape(mem: Memory, after: Memory, bins: seq<Word>, lists: seq<seq<nat>>, blocks: Blocks, cursor: nat,
      a: nat, kind: Kind)
    requires Shape(mem, bins, lists, blocks, cursor)
    requires a in blocks && !blocks[a].kind.Free? && !kind.Free?
    requires Mapped(after) && SameOutside(mem, after, a, After(blocks, a))
    requires BlockWords(after, a, Block(blocks[a].cap, kind))
    requires kind.Live? ==>
             kind.site != 0 && 0 < kind.requested <= WORD_LIMIT - 32 && CapacityForSize(kind.requested) <= blocks[a].cap
    ensures Shape(after, bins, lists, blocks[a := Block(blocks[a].cap, kind)], cursor)
  {
    var blocks' := blocks[a := Block(blocks[a].cap, kind)];
    EditBinned(mem, after, bins, lists, blocks, blocks', cursor, a);
    RekindTiled(blocks, cursor, a, kind);
    assert Worded(after, blocks', cursor) by {
      EditInside(mem, after, blocks, cursor, a);
    }
    RekindSized(blocks, a, kind);
    UnfreeSeparated(blocks, a, kind);
  }

  lemma RetireShape(mem: Memory, bins: seq<Word>, lists: seq<seq<nat>>, blocks: Blocks, cursor: nat, h: nat)
    requires Shape(mem, bins, lists, blocks, cursor) && h in blocks && blocks[h].kind.Pending?
    ensures Shape(mem[h + 12 := 0], bins, lists, blocks, cursor)
    ensures SamePayloads(mem, mem[h + 12 := 0], blocks)
  {
    var after := mem[h + 12 := 0];
    assert BlockWords(mem, h, blocks[h]);
    EditShape(mem, after, bins, lists, blocks, cursor, h, Pending);
    assert blocks[h := Block(blocks[h].cap, Pending)] == blocks;
    EditIdle(mem, after, blocks, cursor, h);
  }

  lemma ResetShape(mem: Memory, bins: seq<Word>, lists: seq<seq<nat>>, blocks: Blocks, cursor: nat, h: nat)
    requires Shape(mem, bins, lists, blocks, cursor) && h in blocks && blocks[h].kind.Pending?
    ensures Shape(mem[h := 0][h + 4 := FREE_MAGIC][h + 12 := 0], bins, lists, blocks, cursor)
    ensures SamePayloads(mem, mem[h := 0][h + 4 := FREE_MAGIC][h + 12 := 0], blocks)
  {
    var after := mem[h := 0][h + 4 := FREE_MAGIC][h + 12 := 0];
    assert BlockWords(mem, h, blocks[h]);
    EditShape(mem, after, bins, lists, blocks, cursor, h, Pending);
    assert blocks[h := Block(blocks[h].cap, Pending)] == blocks;
    EditIdle(mem, after, blocks, cursor, h);
  }

  function Footed(mem: Memory, a: nat, cap: Word, link: Word): Memory {
    mem[a + HEADER + cap - 8 := FREE_MAGIC][a + HEADER + cap - 4 := cap][a + 12 := link]
  }

  /** A pending block between blocks that are not free joins the list of its bin. */
  lemma PushShape(mem: Memory, bins: seq<Word>, lists: seq<seq<nat>>, blocks: Blocks, cursor: nat, a: nat)
    requires Shape(mem, bins, lists, blocks, cursor)
    requires a in blocks && blocks[a].kind.Pending? && Insulated(blocks, a)
    ensures a < WORD_LIMIT && blocks[a].cap < WORD_LIMIT
    ensures var bin := BinFor(blocks[a].cap);
            var after := Footed(mem, a, blocks[a].cap, bins[bin]);
            && Shape(after, bins[bin := a], lists[bin := [a] + lists[bin]], blocks[a := Block(blocks[a].cap, Free)],
              cursor)
            && SamePayloads(mem, after, blocks)
  {
    var link := bins[BinFor(blocks[a].cap)];
    PushWorded(mem, blocks, cursor, a, link);
    PushLists(mem, Footed(mem, a, blocks[a].cap, link), bins, lists, blocks, cursor, a);
    IdleSized(blocks, a, Free);
    FreeSeparated(blocks, a);
  }

  lemma PushWorded(mem: Memory, blocks: Blocks, cursor: nat, a: nat, link: Word)
    requires Mapped(mem) && cursor <= END && Tiled(blocks, BASE, cursor) && Worded(mem, blocks, cursor)
    requires a in blocks && blocks[a].kind.Pending?
    ensures Tiled(blocks[a := Block(blocks[a].cap, Free)], BASE, cursor)
    ensures var after := Footed(mem, a, blocks[a].cap, link);
            && SameOutside(mem, after, a, After(blocks, a))
            && Worded(after, blocks[a := Block(blocks[a].cap, Free)], cursor)
            && SamePayloads(mem, after, blocks)
  {
    var after, blocks' := Footed(mem, a, blocks[a].cap, link), blocks[a := Block(blocks[a].cap, Free)];
    RekindTiled(blocks, cursor, a, Free);
    EditInside(mem, after, blocks, cursor, a);
    EditIdle(mem, after, blocks, cursor, a);
    assert BlockWords(after, a, blocks'[a]) by { assert BlockWords(mem, a, blocks[a]); }
  }

  lemma PushLists(mem: Memory, after: Memory, bins: seq<Word>, lists: seq<seq<nat>>, blocks: Blocks, cursor: nat,
      a: nat)
    requires Mapped(mem) && Mapped(after) && cursor <= END && Tiled(blocks, BASE, cursor)
    requires Binned(mem, bins, lists, blocks)
    requires a in blocks && blocks[a].kind.Pending?
    requires SameOutside(mem, after, a, After(blocks, a)) && after[a + 12] == bins[BinFor(blocks[a].cap)]
    ensures var bin := BinFor(blocks[a].cap);
            Binned(after, bins[bin := a], lists[bin := [a] + lists[bin]], blocks[a := Block(blocks[a].cap, Free)])
  {
    PushBinned(mem, after, bins, lists, blocks, a);
  }

  lemma MergeShape(mem: Memory, bins: seq<Word>, lists: seq<seq<nat>>, blocks: Blocks, cursor: nat, a: nat, next: nat)
    requires Shape(mem, bins, lists, blocks, cursor)
    requires a in blocks && next in blocks && blocks[a].kind.Pending? && blocks[next].kind.Pending?
    requires After(blocks, a) == next
    ensures blocks[a].cap + HEADER + blocks[next].cap < WORD_LIMIT
    ensures var after := mem[a + 8 := blocks[a].cap + HEADER + blocks[next].cap];
            && Shape(after, bins, lists, Merged(blocks, a, next), cursor)
            && SamePayloads(mem, after, blocks)
  {
    hide Binned, Worded, Tiled, Aligned, Separated, Fitting, SamePayloads, SameOutside, Mapped;
    MergeRest(mem, blocks, cursor, a, next);
    var after := mem[a + 8 := blocks[a].cap + HEADER + blocks[next].cap];
    EditBinned(mem, after, bins, lists, blocks, Merged(blocks, a, next), cursor, a);
  }

  lemma MergeRest(mem: Memory, blocks: Blocks, cursor: nat, a: nat, next: nat)
    requires Mapped(mem) && cursor <= END && Tiled(blocks, BASE, cursor) && Worded(mem, blocks, cursor)
    requires Aligned(blocks) && Separated(blocks) && Fitting(blocks)
    requires a in blocks && next in blocks && blocks[a].kind.Pending? && blocks[next].kind.Pending?
    requires After(blocks, a) == next
    ensures blocks[a].cap + HEADER + blocks[next].cap < WORD_LIMIT
    ensures var after, blocks' := mem[a + 8 := blocks[a].cap + HEADER + blocks[next].cap], Merged(blocks, a, next);
            && Mapped(after) && SameOutside(mem, after, a, After(blocks, a))
            && Tiled(blocks', BASE, cursor) && Worded(after, blocks', cursor)
            && Aligned(blocks') && Separated(blocks') && Fitting(blocks')
            && SamePayloads(mem, after, blocks)
  {
    MergeWorded(mem, blocks, cursor, a, next);
    MergeSeparated(blocks, cursor, a, next);
    MergeSized(blocks, a, next);
  }

  lemma SumAligned(x: nat, y: nat)
    requires x % 16 == 0 && y % 16 == 0
    ensures (x + HEADER + y) % 16 == 0
  {
  }

  lemma MergeSized(blocks: Blocks, a: nat, next: nat)
    requires Aligned(blocks) && Fitting(blocks) && a in blocks && next in blocks
    ensures Aligned(Merged(blocks, a, next)) && Fitting(Merged(blocks, a, next))
  {
    SumAligned(blocks[a].cap, blocks[next].cap);
  }

  lemma MergeWorded(mem: Memory, blocks: Blocks, cursor: nat, a: nat, next: nat)
    requires Mapped(mem) && cursor <= END && Tiled(blocks, BASE, cursor) && Worded(mem, blocks, cursor)
    requires a in blocks && next in blocks && blocks[a].kind.Pending? && After(blocks, a) == next
    ensures blocks[a].cap + HEADER + blocks[next].cap < WORD_LIMIT
    ensures Tiled(Merged(blocks, a, next), BASE, cursor)
    ensures var after := mem[a + 8 := blocks[a].cap + HEADER + blocks[next].cap];
            && SameOutside(mem, after, a, After(blocks, a))
            && Worded(after, Merged(blocks, a, next), cursor)
            && SamePayloads(mem, after, blocks)
  {
    var blocks' := Merged(blocks, a, next);
    var after := mem[a + 8 := blocks'[a].cap];
    MergeTiled(blocks, cursor, a, next);
    EditInside(mem, after, blocks, cursor, a);
    EditIdle(mem, after, blocks, cursor, a);
    assert BlockWords(after, a, blocks'[a]) by { assert BlockWords(mem, a, blocks[a]); }
  }

  lemma MergeSeparated(blocks: Blocks, cursor: nat, a: nat, next: nat)
    requires Tiled(blocks, BASE, cursor) && Separated(blocks)
    requires a in blocks && next in blocks && !blocks[a].kind.Free? && After(blocks, a) == next
    ensures Separated(Merged(blocks, a, next))
  {
    var after := Merged(blocks, a, next);
    forall b {:trigger After(after, b)} | b in after && after[b].kind.Free?
      ensures After(after, b) in after && !after[After(after, b)].kind.Free?
    {
      assert After(after, b) == After(blocks, b);
      assert After(blocks, b) != next;
    }
  }

  function SplitWords(mem: Memory, a: nat, cap: Word, needed: Word): Memory
    requires cap >= needed + HEADER
  {
    var rest := a + HEADER + needed;
    mem[rest := 0][rest + 4 := FREE_MAGIC][rest + 8 := cap - needed - HEADER][rest + 12 := 0][a + 8 := needed]
  }

  lemma SplitShape(mem: Memory, bins: seq<Word>, lists: seq<seq<nat>>, blocks: Blocks, cursor: nat, a: nat,
      needed: Word)
    requires Shape(mem, bins, lists, blocks, cursor)
    requires a in blocks && blocks[a].kind.Pending? && needed % 16 == 0
    requires needed >= MIN_CAPACITY && blocks[a].cap >= needed + HEADER + MIN_CAPACITY
    ensures blocks[a].cap < WORD_LIMIT && a + HEADER + needed !in blocks
    ensures var after := SplitWords(mem, a, blocks[a].cap, needed);
            && Shape(after, bins, lists, Split(blocks, a, needed), cursor)
            && SamePayloads(mem, after, blocks)
  {
    var after := SplitWords(mem, a, blocks[a].cap, needed);
    SplitRest(mem, blocks, cursor, a, needed);
    EditBinned(mem, after, bins, lists, blocks, Split(blocks, a, needed), cursor, a);
  }

  lemma SplitRest(mem: Memory, blocks: Blocks, cursor: nat, a: nat, needed: Word)
    requires Mapped(mem) && cursor <= END && Tiled(blocks, BASE, cursor) && Worded(mem, blocks, cursor)
    requires Aligned(blocks) && Separated(blocks) && Fitting(blocks)
    requires a in blocks && blocks[a].kind.Pending? && needed % 16 == 0
    requires needed >= MIN_CAPACITY && blocks[a].cap >= needed + HEADER + MIN_CAPACITY
    ensures blocks[a].cap < WORD_LIMIT
    ensures a + HEADER + needed !in blocks
    ensures var after, blocks' := SplitWords(mem, a, blocks[a].cap, needed), Split(blocks, a, needed);
            && Mapped(after) && SameOutside(mem, after, a, After(blocks, a))
            && Tiled(blocks', BASE, cursor) && Worded(after, blocks', cursor)
            && Aligned(blocks') && Separated(blocks') && Fitting(blocks')
            && SamePayloads(mem, after, blocks)
  {
    assert BlockWords(mem, a, blocks[a]);
    SplitBlockWords(mem, a, blocks[a].cap, needed);
    SplitWorded(mem, SplitWords(mem, a, blocks[a].cap, needed), blocks, cursor, a, needed);
    SplitSeparated(blocks, cursor, a, needed);
    SplitSized(blocks, a, needed);
  }

  lemma SplitSized(blocks: Blocks, a: nat, needed: nat)
    requires Aligned(blocks) && Fitting(blocks)
    requires a in blocks && needed % 16 == 0 && blocks[a].cap >= needed + HEADER + MIN_CAPACITY
    ensures Aligned(Split(blocks, a, needed)) && Fitting(Split(blocks, a, needed))
  {
  }

  lemma SplitWorded(mem: Memory, after: Memory, blocks: Blocks, cursor: nat, a: nat, needed: Word)
    requires Mapped(mem) && Mapped(after) && cursor <= END && Tiled(blocks, BASE, cursor) && Worded(mem, blocks, cursor)
    requires a in blocks && blocks[a].kind.Pending?
    requires needed >= MIN_CAPACITY && blocks[a].cap >= needed + HEADER + MIN_CAPACITY
    requires SameOutside(mem, after, a, After(blocks, a))
    requires BlockWords(after, a, Block(needed, Pending))
    requires BlockWords(after, a + HEADER + needed, Block(blocks[a].cap - needed - HEADER, Pending))
    ensures a + HEADER + needed !in blocks
    ensures Tiled(Split(blocks, a, needed), BASE, cursor)
    ensures Worded(after, Split(blocks, a, needed), cursor)
    ensures SamePayloads(mem, after, blocks)
  {
    SplitTiled(blocks, cursor, a, needed);
    SplitOthers(mem, after, blocks, cursor, a, needed);
    EditIdle(mem, after, blocks, cursor, a);
  }

  lemma SplitOthers(mem: Memory, after: Memory, blocks: Blocks, cursor: nat, a: nat, needed: Word)
    requires Mapped(mem) && Mapped(after) && cursor <= END && Tiled(blocks, BASE, cursor) && Worded(mem, blocks, cursor)
    requires a in blocks && blocks[a].cap >= needed + HEADER + MIN_CAPACITY
    requires InRange(Split(blocks, a, needed), BASE, cursor)
    requires SameOutside(mem, after, a, After(blocks, a))
    ensures forall b :: b in Split(blocks, a, needed) && b != a && b != a + HEADER + needed ==>
              BlockWords(after, b, Split(blocks, a, needed)[b])
  {
    EditInside(mem, after, blocks, cursor, a);
    var blocks' := Split(blocks, a, needed);
    assert forall b :: b in blocks' && b != a && b != a + HEADER + needed ==> b in blocks && blocks'[b] == blocks[b];
  }

  lemma SplitBlockWords(mem: Memory, a: nat, cap: Word, needed: Word)
    requires Mapped(mem) && BASE <= a && a + HEADER + cap <= END
    requires needed >= MIN_CAPACITY && cap >= needed + HEADER + MIN_CAPACITY
    requires BlockWords(mem, a, Block(cap, Pending))
    ensures Mapped(SplitWords(mem, a, cap, needed))
    ensures SameOutside(mem, SplitWords(mem, a, cap, needed), a, a + HEADER + cap)
    ensures BlockWords(SplitWords(mem, a, cap, needed), a, Block(needed, Pending))
    ensures BlockWords(SplitWords(mem, a, cap, needed), a + HEADER + needed, Block(cap - needed - HEADER, Pending))
  {
  }

  lemma SplitSeparated(blocks: Blocks, cursor: nat, a: nat, needed: nat)
    requires Tiled(blocks, BASE, cursor) && Separated(blocks)
    requires a in blocks && !blocks[a].kind.Free? && blocks[a].cap >= needed + HEADER + MIN_CAPACITY
    requires a + HEADER + needed !in blocks
    ensures Separated(Split(blocks, a, needed))
  {
    var after := Split(blocks, a, needed);
    forall b {:trigger After(after, b)} | b in after && after[b].kind.Free?
      ensures After(after, b) in after && !after[After(after, b)].kind.Free?
    {
      assert After(after, b) == After(blocks, b);
    }
  }

  /** The last block goes back to the bump region. */
  lemma DropShape(mem: Memory, bins: seq<Word>, lists: seq<seq<nat>>, blocks: Blocks, cursor: nat, a: nat)
    requires Shape(mem, bins, lists, blocks, cursor)
    requires a in blocks && blocks[a].kind.Pending? && After(blocks, a) == cursor
    requires NoFreeBefore(blocks, a)
    ensures Shape(mem, bins, lists, blocks - {a}, a)
  {
    var blocks' := blocks - {a};
    DropLastTiled(blocks, cursor, a);
    KeepBinned(mem, mem, bins, lists, blocks, blocks');
    forall b {:trigger After(blocks', b)} | b in blocks' && blocks'[b].kind.Free?
      ensures After(blocks', b) in blocks' && !blocks'[After(blocks', b)].kind.Free?
    {
      assert After(blocks', b) == After(blocks, b);
    }
  }

  /** A live block is cut from the bump region. */
  lemma ExtendShape(mem: Memory, after: Memory, bins: seq<Word>, lists: seq<seq<nat>>, blocks: Blocks, cursor: nat,
      b: Block)
    requires Shape(mem, bins, lists, blocks, cursor)
    requires b.kind.Live? && b.cap % 16 == 0 && b.cap >= MIN_CAPACITY && cursor + HEADER + b.cap <= END
    requires b.kind.site != 0 && 0 < b.kind.requested <= WORD_LIMIT - 32 && CapacityForSize(b.kind.requested) <= b.cap
    requires Mapped(after) && SameOutside(mem, after, cursor, cursor + HEADER + b.cap) && BlockWords(after, cursor, b)
    ensures cursor !in blocks
    ensures Shape(after, bins, lists, blocks[cursor := b], cursor + HEADER + b.cap)
    ensures SamePayloads(mem, after, blocks)
  {
    ExtendWorded(mem, after, blocks, cursor, b);
    CursorAligned(blocks, BASE, cursor);
    ExtendRest(blocks, cursor, b);
    assert Binned(after, bins, lists, blocks[cursor := b]) by {
      KeepBinned(mem, after, bins, lists, blocks, blocks[cursor := b]);
    }
  }

  lemma ExtendRest(blocks: Blocks, cursor: nat, b: Block)
    requires cursor !in blocks && Aligned(blocks) && Fitting(blocks) && Separated(blocks)
    requires b.kind.Live? && b.cap % 16 == 0 && cursor % 16 == 0
    requires b.kind.site != 0 && 0 < b.kind.requested <= WORD_LIMIT - 32 && CapacityForSize(b.kind.requested) <= b.cap
    ensures Aligned(blocks[cursor := b]) && Fitting(blocks[cursor := b]) && Separated(blocks[cursor := b])
  {
    var after := blocks[cursor := b];
    forall a {:trigger After(after, a)} | a in after && after[a].kind.Free?
      ensures After(after, a) in after && !after[After(after, a)].kind.Free?
    {
      assert After(after, a) == After(blocks, a);
    }
  }

  lemma ExtendWorded(mem: Memory, after: Memory, blocks: Blocks, cursor: nat, b: Block)
    requires Mapped(mem) && cursor <= END && Tiled(blocks, BASE, cursor) && Worded(mem, blocks, cursor)
    requires b.cap >= MIN_CAPACITY && BASE <= cursor && cursor + HEADER + b.cap <= END
    requires Mapped(after) && SameOutside(mem, after, cursor, cursor + HEADER + b.cap) && BlockWords(after, cursor, b)
    ensures cursor !in blocks
    ensures Tiled(blocks[cursor := b], BASE, cursor + HEADER + b.cap)
    ensures Worded(after, blocks[cursor := b], cursor + HEADER + b.cap)
    ensures SamePayloads(mem, after, blocks)
  {
    ExtendTiled(blocks, cursor, b);
    forall a | a in blocks ensures BlockWords(after, a, blocks[a]) {
      assert BlockWords(mem, a, blocks[a]);
    }
  }

  /** Guest and runtime writes inside a live payload never disturb the heap: the words that
      mimic footers or headers there mean nothing. */
  lemma PayloadShape(mem: Memory, after: Memory, bins: seq<Word>, lists: seq<seq<nat>>, blocks: Blocks, cursor: nat,
      a: nat)
    requires Shape(mem, bins, lists, blocks, cursor) && a in blocks && blocks[a].kind.Live?
    requires Mapped(after) && SameOutside(mem, after, a + HEADER, After(blocks, a))
    ensures Shape(after, bins, lists, blocks, cursor)
    ensures SamePayloads(mem, after, blocks - {a})
  {
    hide Binned, SamePayloads, SameOutside, BlockWords, Separated, Worded, Tiled;
    PayloadRest(mem, after, blocks, cursor, a);
    assert blocks[a := Block(blocks[a].cap, blocks[a].kind)] == blocks;
    EditShape(mem, after, bins, lists, blocks, cursor, a, blocks[a].kind);
  }

  lemma PayloadRest(mem: Memory, after: Memory, blocks: Blocks, cursor: nat, a: nat)
    requires Mapped(mem) && cursor <= END && Tiled(blocks, BASE, cursor) && Worded(mem, blocks, cursor)
    requires a in blocks && blocks[a].kind.Live?
    requires Mapped(after) && SameOutside(mem, after, a + HEADER, After(blocks, a))
    ensures SameOutside(mem, after, a, After(blocks, a)) && BlockWords(after, a, blocks[a])
    ensures SamePayloads(mem, after, blocks - {a})
  {
    assert BlockWords(mem, a, blocks[a]);
  }

  function LiveHeader(mem: Memory, a: nat, size: Word, site: Word): Memory {
    mem[a := size][a + 4 := LIVE_MAGIC][a + 12 := site]
  }

  lemma AdoptShape(mem: Memory, bins: seq<Word>, lists: seq<seq<nat>>, blocks: Blocks, cursor: nat, a: nat, size: Word,
      site: Word)
    requires Shape(mem, bins, lists, blocks, cursor) && a in blocks && !blocks[a].kind.Free?
    requires site != 0 && 0 < size <= WORD_LIMIT - 32 && CapacityForSize(size) <= blocks[a].cap
    ensures var after := LiveHeader(mem, a, size, site);
            && Shape(after, bins, lists, blocks[a := Block(blocks[a].cap, Live(size, site))], cursor)
            && SamePayloads(mem, after, blocks)
  {
    var after := LiveHeader(mem, a, size, site);
    assert BlockWords(mem, a, blocks[a]);
    EditShape(mem, after, bins, lists, blocks, cursor, a, Live(size, site));
    HeaderKeepsPayloads(mem, after, blocks, cursor, a);
  }

  lemma HeaderKeepsPayloads(mem: Memory, after: Memory, blocks: Blocks, cursor: nat, a: nat)
    requires Tiled(blocks, BASE, cursor) && a in blocks && SameOutside(mem, after, a, a + HEADER)
    ensures SamePayloads(mem, after, blocks)
  {
  }

  lemma ReleaseShape(mem: Memory, after: Memory, bins: seq<Word>, lists: seq<seq<nat>>, blocks: Blocks, cursor: nat,
      a: nat)
    requires Shape(mem, bins, lists, blocks, cursor) && a in blocks && blocks[a].kind.Live?
    requires Mapped(after) && SameOutside(mem, after, a, After(blocks, a))
    requires after[a + 4] == FREE_MAGIC && after[a + 8] == mem[a + 8]
    ensures Shape(after, bins, lists, blocks[a := Block(blocks[a].cap, Pending)], cursor)
    ensures SamePayloads(mem, after, blocks[a := Block(blocks[a].cap, Pending)])
  {
    assert BlockWords(mem, a, blocks[a]);
    EditShape(mem, after, bins, lists, blocks, cursor, a, Pending);
  }

  lemma GrowTiled(blocks: Blocks, hi: nat, a: nat, b: Block)
    requires Tiled(blocks, BASE, hi) && a in blocks && After(blocks, a) == hi && b.cap >= blocks[a].cap
    ensures Tiled(blocks[a := b], BASE, a + HEADER + b.cap)
  {
    var after := blocks[a := b];
    forall c {:trigger After(after, c)} | c in after ensures After(after, c) == a + HEADER + b.cap
      || After(after, c) in after {
      if c != a {
        assert After(after, c) == After(blocks, c);
      }
    }
  }

  /** The last block takes more of the bump region. */
  lemma GrowShape(mem: Memory, bins: seq<Word>, lists: seq<seq<nat>>, blocks: Blocks, cursor: nat, a: nat, b: Block)
    requires Shape(mem, bins, lists, blocks, cursor) && a in blocks && blocks[a].kind.Live?
    requires After(blocks, a) == cursor
    requires b.kind.Live? && b.kind.site == blocks[a].kind.site && b.cap >= blocks[a].cap && b.cap % 16 == 0
    requires 0 < b.kind.requested <= WORD_LIMIT - 32 && CapacityForSize(b.kind.requested) <= b.cap
    requires a + HEADER + b.cap <= END
    ensures var after := mem[a := b.kind.requested][a + 8 := b.cap];
            && Shape(after, bins, lists, blocks[a := b], a + HEADER + b.cap)
            && SamePayloads(mem, after, blocks)
  {
    hide Binned, SamePayloads, SameOutside, BlockWords, Aligned, Fitting, Separated, Worded, Tiled, Mapped;
    var after := mem[a := b.kind.requested][a + 8 := b.cap];
    GrowTiled(blocks, cursor, a, b);
    GrowWorded(mem, blocks, cursor, a, b);
    EditBinned(mem, after, bins, lists, blocks, blocks[a := b], cursor, a);
    HeaderKeepsPayloads(mem, after, blocks, cursor, a);
    GrowRest(blocks, cursor, a, b);
  }

  lemma GrowWorded(mem: Memory, blocks: Blocks, cursor: nat, a: nat, b: Block)
    requires Mapped(mem) && cursor <= END && Tiled(blocks, BASE, cursor) && Worded(mem, blocks, cursor)
    requires a in blocks && blocks[a].kind.Live? && After(blocks, a) == cursor
    requires b.kind.Live? && b.kind.site == blocks[a].kind.site && b.kind.requested < WORD_LIMIT
    requires b.cap < WORD_LIMIT && a + HEADER + b.cap <= END && Tiled(blocks[a := b], BASE, a + HEADER + b.cap)
    ensures var after := mem[a := b.kind.requested][a + 8 := b.cap];
            && Mapped(after) && Worded(after, blocks[a := b], a + HEADER + b.cap)
            && SameOutside(mem, after, a, a + HEADER) && SameOutside(mem, after, a, After(blocks, a))
  {
    var after := mem[a := b.kind.requested][a + 8 := b.cap];
    assert BlockWords(mem, a, blocks[a]);
    EditInside(mem, after, blocks, cursor, a);
  }

  lemma GrowRest(blocks: Blocks, cursor: nat, a: nat, b: Block)
    requires Tiled(blocks, BASE, cursor) && Aligned(blocks) && Fitting(blocks) && Separated(blocks)
    requires a in blocks && blocks[a].kind.Live? && After(blocks, a) == cursor && b.cap % 16 == 0
    requires b.kind.Live? && b.kind.site == blocks[a].kind.site
    requires 0 < b.kind.requested <= WORD_LIMIT - 32 && CapacityForSize(b.kind.requested) <= b.cap
    ensures Aligned(blocks[a := b]) && Fitting(blocks[a := b]) && Separated(blocks[a := b])
  {
    var after := blocks[a := b];
    forall c {:trigger After(after, c)} | c in after && after[c].kind.Free?
      ensures After(after, c) in after && !after[After(after, c)].kind.Free?
    {
      assert After(after, c) == After(blocks, c);
    }
  }

  lemma ResizeShape(mem: Memory, bins: seq<Word>, lists: seq<seq<nat>>, blocks: Blocks, cursor: nat, a: nat, size: Word)
    requires Shape(mem, bins, lists, blocks, cursor) && a in blocks && blocks[a].kind.Live?
    requires 0 < size <= WORD_LIMIT - 32 && CapacityForSize(size) <= blocks[a].cap
    ensures Shape(mem[a := size], bins, lists, blocks[a := Block(blocks[a].cap, Live(size, blocks[a].kind.site))],
            cursor)
    ensures SamePayloads(mem, mem[a := size], blocks)
  {
    BlockFacts(mem, bins, lists, blocks, cursor, a);
    EditShape(mem, mem[a := size], bins, lists, blocks, cursor, a, Live(size, blocks[a].kind.site));
    HeaderKeepsPayloads(mem, mem[a := size], blocks, cursor, a);
  }

  // ---------------------------------------------------------------- live blocks and their bytes

  ghost function LiveOf(blocks: Blocks): Blocks
  {
    map a | a in blocks && blocks[a].kind.Live? :: blocks[a]
  }

  /** An address in the header or payload of one of these blocks. */
  ghost predicate Handed(live: Blocks, a: nat)
  {
    exists b :: b in live && b <= a < After(live, b)
  }

  /** The header at each freed address still says it is free, and no live block lies over it. */
  ghost predicate Refusing(mem: Memory, live: Blocks, freed: set<nat>)
  {
    forall a :: a in freed ==>
      BASE <= a && a % 16 == 0 && a + 4 in mem && mem[a + 4] == FREE_MAGIC && !Handed(live, a)
  }

  /** Writing between `lo` and `hi` leaves the freed headers elsewhere alone. */
  lemma RefusingKept(mem0: Memory, live0: Blocks, mem: Memory, live: Blocks, freed0: set<nat>, freed: set<nat>, lo: nat,
      hi: nat)
    requires Refusing(mem0, live0, freed0) && freed <= freed0 && TagsKept(mem0, mem, lo, hi)
    requires forall a :: a in freed && !Handed(live0, a) ==> !Handed(live, a) && !(lo <= a + 4 < hi)
    ensures Refusing(mem, live, freed)
  {
    hide Handed;
  }

  /** The freed headers that a block handed out at `h` does not cover. */
  function Uncovered(freed: set<nat>, h: nat, end: nat): set<nat>
  {
    set a | a in freed && !(h <= a < end)
  }

  lemma HandedMore(live: Blocks, h: nat, b: Block, a: nat)
    ensures Handed(live[h := b], a) ==> Handed(live, a) || h <= a < h + HEADER + b.cap
  {
    if Handed(live[h := b], a) {
      var c :| c in live[h := b] && c <= a < After(live[h := b], c);
      assert c != h ==> c in live && c <= a < After(live, c);
    }
  }

  lemma HandedLess(live: Blocks, h: nat, a: nat)
    ensures Handed(live - {h}, a) ==> Handed(live, a)
  {
    if Handed(live - {h}, a) {
      var c :| c in live - {h} && c <= a < After(live - {h}, c);
      assert c in live && c <= a < After(live, c);
    }
  }

  lemma RefusingHanded(mem0: Memory, live0: Blocks, mem: Memory, live: Blocks, freed: set<nat>, h: nat, b: Block)
    requires Refusing(mem0, live0, freed) && h % 16 == 0 && live == live0[h := b]
    requires TagsKept(mem0, mem, h, h + HEADER + b.cap)
    ensures Refusing(mem, live, Uncovered(freed, h, h + HEADER + b.cap))
  {
    var end, rest := h + HEADER + b.cap, Uncovered(freed, h, h + HEADER + b.cap);
    forall a | a in rest && !Handed(live0, a) ensures !Handed(live, a) && !(h <= a + 4 < end) {
      assert a % 16 == 0;
      HandedMore(live0, h, b, a);
    }
    hide Handed, Refusing, TagsKept;
    RefusingKept(mem0, live0, mem, live, freed, rest, h, end);
  }

  /** A block that was live already covers no freed header. */
  lemma NothingUncovered(mem: Memory, live: Blocks, freed: set<nat>, h: nat)
    requires Refusing(mem, live, freed) && h in live
    ensures Uncovered(freed, h, After(live, h)) == freed
  {
  }

  /** Writing inside a live block. */
  lemma RefusingInside(mem0: Memory, mem: Memory, live: Blocks, freed: set<nat>, h: nat, lo: nat, hi: nat)
    requires Refusing(mem0, live, freed) && TagsKept(mem0, mem, lo, hi)
    requires h in live && h + HEADER <= lo && hi <= After(live, h)
    ensures Refusing(mem, live, freed)
  {
    forall a | a in freed && !Handed(live, a) ensures !(lo <= a + 4 < hi) {
      assert !(h <= a < After(live, h));
    }
    hide Handed, Refusing, TagsKept;
    RefusingKept(mem0, live, mem, live, freed, freed, lo, hi);
  }

  /** Freeing the live block at `h`. */
  lemma RefusingFreed(mem0: Memory, live0: Blocks, mem: Memory, live: Blocks, freed: set<nat>, h: nat)
    requires Refusing(mem0, live0, freed) && h in live0 && live == live0 - {h} && Apart(live0)
    requires TagsKept(mem0, mem, h, After(live0, h)) && BASE <= h && h % 16 == 0 && h + 4 in mem
    requires mem[h + 4] == FREE_MAGIC
    ensures Refusing(mem, live, freed + {h})
  {
    forall a | a in freed && !Handed(live0, a) ensures !Handed(live, a) && !(h <= a + 4 < After(live0, h)) {
      assert a % 16 == 0;
      assert !(h <= a < After(live0, h));
      HandedLess(live0, h, a);
    }
    RefusingKept(mem0, live0, mem, live, freed, freed, h, After(live0, h));
    forall c | c in live ensures !(c <= h < After(live, c)) {
    }
  }

  /** Freed headers are remembered as long as nothing is handed out over them. */
  ghost predicate Outlive(freed0: set<nat>, freed: set<nat>, live: Blocks)
  {
    forall a :: a in freed0 ==> a in freed || Handed(live, a)
  }

  lemma OutliveMore(freed0: set<nat>, freed: set<nat>, live: Blocks)
    requires freed0 <= freed
    ensures Outlive(freed0, freed, live)
  {
  }

  lemma OutliveUncovered(freed0: set<nat>, freed: set<nat>, live: Blocks, h: nat)
    requires h in live && Uncovered(freed0, h, After(live, h)) <= freed
    ensures Outlive(freed0, freed, live)
  {
    forall a | a in freed0 && a !in freed ensures Handed(live, a) {
      assert h <= a < After(live, h);
    }
  }

  lemma LiveUpdate(blocks: Blocks, h: nat, b: Block)
    requires b.kind.Live?
    ensures LiveOf(blocks[h := b]) == LiveOf(blocks)[h := b]
  {
  }

  lemma LiveApart(blocks: Blocks, lo: nat, hi: nat)
    requires Tiled(blocks, lo, hi)
    ensures Apart(LiveOf(blocks))
  {
  }

  function Pow256(k: nat): (p: nat)
    ensures p > 0
  {
    if k == 0 then 1 else 0x100 * Pow256(k - 1)
  }

  /** Byte `k` of a little-endian word. */
  function ByteOf(w: nat, k: nat): nat
  {
    if k == 0 then w % 0x100 else ByteOf(w / 0x100, k - 1)
  }

  /** A word is its four bytes, the lowest first. */
  lemma WordBytes(w: Word)
    ensures w == ByteOf(w, 0) + 0x100 * ByteOf(w, 1) + 0x1_0000 * ByteOf(w, 2) + 0x100_0000 * ByteOf(w, 3)
    ensures forall k: nat :: ByteOf(w, k) < 0x100
  {
    var w1 := w / 0x100;
    var w2 := w1 / 0x100;
    assert ByteOf(w, 1) == ByteOf(w1, 0) && ByteOf(w, 2) == ByteOf(w1, 1) == ByteOf(w2, 0);
    assert ByteOf(w, 3) == ByteOf(w1, 2) == ByteOf(w2, 1) == ByteOf(w2 / 0x100, 0);
    forall k: nat ensures ByteOf(w, k) < 0x100 {
      ByteSmall(w, k);
    }
  }

  lemma ByteSmall(w: nat, k: nat)
    ensures ByteOf(w, k) < 0x100
  {
  }

  /** The low `k` bytes of `from` over the rest of `onto`, both `digits` bytes wide. */
  function {:induction false} Overlay(onto: nat, from: nat, k: nat, digits: nat): (w: nat)
    requires k <= digits && onto < Pow256(digits) && from < Pow256(digits)
    ensures w < Pow256(digits)
    ensures k == digits ==> w == from
  {
    if digits == 0 then 0
    else if k == 0 then onto
    else from % 0x100 + 0x100 * Overlay(onto / 0x100, from / 0x100, k - 1, digits - 1)
  }

  lemma {:induction false} OverlayByte(onto: nat, from: nat, k: nat, digits: nat, j: nat)
    requires k <= digits && onto < Pow256(digits) && from < Pow256(digits)
    ensures ByteOf(Overlay(onto, from, k, digits), j) == if j < k then ByteOf(from, j) else ByteOf(onto, j)
  {
    if digits == 0 {
      assert onto == 0;
    } else if k != 0 && j != 0 {
      var rest := Overlay(onto / 0x100, from / 0x100, k - 1, digits - 1);
      assert (from % 0x100 + 0x100 * rest) / 0x100 == rest;
      OverlayByte(onto / 0x100, from / 0x100, k - 1, digits - 1, j - 1);
    }
  }

  /** Byte `j` of the payload that starts at the word-aligned address `p`. */
  function ByteAt(mem: Memory, p: nat, j: nat): nat
  {
    var x := p + (j - j % 4);
    ByteOf(if x in mem then mem[x] else 0, j % 4)
  }

  ghost predicate SameBytes(mem0: Memory, p0: nat, mem1: Memory, p1: nat, n: nat)
  {
    forall j :: 0 <= j < n ==> ByteAt(mem1, p1, j) == ByteAt(mem0, p0, j)
  }

  lemma WordWidth()
    ensures Pow256(4) == WORD_LIMIT
  {
    assert Pow256(1) == 0x100 && Pow256(2) == 0x1_0000 && Pow256(3) == 0x100_0000;
  }

  /** One word of a copy of `n` bytes, `offset` bytes in. */
  function CopiedWord(onto: Word, from: Word, offset: nat, n: nat): Word
    requires offset < n
  {
    WordWidth();
    Overlay(onto, from, if offset + 4 <= n then 4 else n - offset, 4)
  }

  /** memcpy of `n` bytes between two word-aligned addresses. */
  function Copied(mem: Memory, dst: nat, src: nat, n: nat): Memory
    requires Mapped(mem) && BASE <= src && src + n <= END
  {
    map x | x in mem ::
      if dst <= x < dst + n && x % 4 == dst % 4 then CopiedWord(mem[x], mem[src + (x - dst)], x - dst, n) else mem[x]
  }

  lemma CopiedWordByte(onto: Word, from: Word, offset: nat, n: nat, k: nat)
    requires k < 4 && offset + k < n
    ensures ByteOf(CopiedWord(onto, from, offset, n), k) == ByteOf(from, k)
  {
    WordWidth();
    OverlayByte(onto, from, if offset + 4 <= n then 4 else n - offset, 4, k);
  }

  lemma CopiedBytes(mem: Memory, dst: nat, src: nat, n: nat)
    requires Mapped(mem) && BASE <= src && src + n <= END && BASE <= dst && dst + n <= END
    ensures Mapped(Copied(mem, dst, src, n)) && SameOutside(mem, Copied(mem, dst, src, n), dst, dst + n)
    ensures SameBytes(mem, src, Copied(mem, dst, src, n), dst, n)
  {
    hide CopiedWord, ByteOf, Overlay;
    var after := Copied(mem, dst, src, n);
    forall j | 0 <= j < n ensures ByteAt(after, dst, j) == ByteAt(mem, src, j) {
      var offset := j - j % 4;
      SamePhase(dst, j);
      assert after[dst + offset] == CopiedWord(mem[dst + offset], mem[src + offset], offset, n);
      CopiedWordByte(mem[dst + offset], mem[src + offset], offset, n, j % 4);
    }
  }

  lemma SamePhase(x: nat, j: nat)
    ensures (x + (j - j % 4)) % 4 == x % 4
  {
  }

  /** Every byte of a live payload lies in a word that `SamePayloads` speaks about. */
  lemma PayloadBytesSame(mem0: Memory, mem1: Memory, blocks: Blocks, cursor: nat, p: nat, n: nat)
    requires Mapped(mem0) && Mapped(mem1) && cursor <= END && Tiled(blocks, BASE, cursor)
    requires SamePayloads(mem0, mem1, blocks) && LivePointer(blocks, p) && n <= blocks[p - HEADER].cap
    ensures SameBytes(mem0, p, mem1, p, n)
  {
    var a := p - HEADER;
    assert BASE <= a && a + HEADER == p;
  }

  ghost predicate LivePointer(blocks: Blocks, p: nat)
  {
    p >= HEADER && p - HEADER in blocks && blocks[p - HEADER].kind.Live?
  }

  /** What the header in front of a pointer says about it. */
  datatype Verdict = Sound | AlreadyFree | Unsound

  /** The tests a pointer has to pass before its block is released or resized. */
  function HeaderVerdict(mem: Memory, cursor: nat, pointer: Word): Verdict
    requires Mapped(mem) && cursor <= END
  {
    if pointer < BASE + HEADER || pointer % 16 != 0 || pointer > cursor then Unsound
    else
      var h := pointer - HEADER;
      if mem[h + 4] == FREE_MAGIC then AlreadyFree
      else if mem[h + 4] != LIVE_MAGIC then Unsound
      else
        var capacity := mem[h + 8];
        if capacity < MIN_CAPACITY || capacity % 16 != 0 || pointer + capacity > cursor
          || mem[h] > capacity then Unsound
        else Sound
  }

  /** The verdict is right about every block there is. */
  lemma VerdictIsRight(mem: Memory, bins: seq<Word>, lists: seq<seq<nat>>, blocks: Blocks, cursor: nat, pointer: Word)
    requires Shape(mem, bins, lists, blocks, cursor) && pointer >= HEADER && pointer - HEADER in blocks
    ensures Mapped(mem) && cursor <= END
    ensures HeaderVerdict(mem, cursor, pointer) == if LivePointer(blocks, pointer) then Sound else AlreadyFree
  {
    hide Shape;
    BlockFacts(mem, bins, lists, blocks, cursor, pointer - HEADER);
  }

  // ---------------------------------------------------------------- whole-heap laws

  /** Live payloads never share a byte. */
  lemma LivePayloadsDisjoint(blocks: Blocks, lo: nat, hi: nat, p: nat, q: nat, x: nat)
    requires Tiled(blocks, lo, hi) && LivePointer(blocks, p) && LivePointer(blocks, q) && p != q
    requires p <= x < p + blocks[p - HEADER].cap
    ensures !(q <= x < q + blocks[q - HEADER].cap)
  {
    assert p - HEADER < q - HEADER || q - HEADER < p - HEADER;
  }

  /** With nothing live there is nothing at all: the cursor is back at the base and every bin is empty. */
  lemma NothingLiveMeansEmpty(mem: Memory, bins: seq<Word>, lists: seq<seq<nat>>, blocks: Blocks, cursor: nat)
    requires Shape(mem, bins, lists, blocks, cursor) && NothingPending(blocks) && LiveOf(blocks) == map[]
    ensures blocks == map[] && cursor == BASE
    ensures forall bin :: 0 <= bin < BINS ==> bins[bin] == 0 && lists[bin] == []
  {
    if cursor != BASE {
      var last := LastIsLive(blocks, cursor);
    }
    assert blocks == map[];
    forall bin | 0 <= bin < BINS ensures bins[bin] == 0 && lists[bin] == [] {
      HeadFacts(mem, bins, lists, blocks, cursor, bin);
      ListIsShort(mem, bins, lists, blocks, cursor, bin);
    }
  }

  /** A block that reaches the cursor is never free, so a heap in use has a live block. */
  lemma LastIsLive(blocks: Blocks, cursor: nat) returns (last: nat)
    requires Tiled(blocks, BASE, cursor) && Separated(blocks) && NothingPending(blocks) && cursor != BASE
    ensures last in LiveOf(blocks) && After(blocks, last) == cursor
  {
    last := LastBlock(blocks, BASE, cursor);
  }
}
