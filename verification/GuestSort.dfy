/** guest_qsort (native/src/compat_runtime.c): an in-place heapsort of fixed-width elements in
    guest memory, ordered by a comparator that runs in the guest. */
module GuestSort {
  import opened Bytes

  type Element = seq<Byte>

  /** The guest's comparator. Its answer may depend on which call it is, so a comparator with
      state, or with no consistent order at all, is one of these too. */
  type Comparator = (nat, Element, Element) -> int

  const BUFFER: nat := 256

  /** On these elements the comparator answers by a total preorder, whatever the call. */
  ghost predicate OrdersOn(cmp: Comparator, le: (Element, Element) -> bool, e: seq<Element>)
  {
    && (forall k, x, y :: x in e && y in e ==> (cmp(k, x, y) < 0 <==> !le(y, x)))
    && (forall k, x, y :: x in e && y in e ==> (cmp(k, x, y) > 0 <==> !le(x, y)))
    && (forall x, y :: x in e && y in e ==> le(x, y) || le(y, x))
    && (forall x, y, z :: x in e && y in e && z in e && le(x, y) && le(y, z) ==> le(x, z))
  }

  /** The same with an order on all elements, of which the comparator need only know these. */
  ghost predicate Orders(cmp: Comparator, le: (Element, Element) -> bool, known: seq<Element>)
  {
    && (forall k, x, y :: x in known && y in known ==> (cmp(k, x, y) < 0 <==> !le(y, x)))
    && (forall k, x, y :: x in known && y in known ==> (cmp(k, x, y) > 0 <==> !le(x, y)))
    && (forall x, y :: le(x, y) || le(y, x))
    && (forall x, y, z :: le(x, y) && le(y, z) ==> le(x, z))
  }

  /** An order on some elements made one on all, the others in front. */
  ghost function Extended(le: (Element, Element) -> bool, known: seq<Element>): (Element, Element) -> bool
  {
    (x, y) => x !in known || (y in known && le(x, y))
  }

  lemma ExtendedOrders(cmp: Comparator, le: (Element, Element) -> bool, known: seq<Element>)
    requires OrdersOn(cmp, le, known)
    ensures Orders(cmp, Extended(le, known), known)
  {
  }

  ghost predicate Within(e: seq<Element>, known: seq<Element>)
  {
    forall i :: 0 <= i < |e| ==> e[i] in known
  }

  lemma SortedExtended(e: seq<Element>, le: (Element, Element) -> bool, known: seq<Element>)
    requires Within(e, known) && Sorted(e, Extended(le, known))
    ensures Sorted(e, le)
  {
    forall i, j | 0 <= i < j < |e| ensures le(e[i], e[j]) {
      assert Extended(le, known)(e[i], e[j]);
    }
  }

  lemma WithinKept(before: seq<Byte>, after: seq<Byte>, base: nat, count: nat, width: nat, hi: nat, known: seq<Element>)
    requires Holds(before, base, count, width) && Holds(after, base, count, width) && hi <= count
    requires Rearranged(before, after, base, count, width, hi) && Within(Elements(before, base, count, width), known)
    ensures Within(Elements(after, base, count, width), known)
  {
    var e, e' := Elements(before, base, count, width), Elements(after, base, count, width);
    forall i | 0 <= i < |e'| ensures e'[i] in known {
      if i < hi {
        assert e'[..hi][i] in multiset(e'[..hi]);
        assert e'[i] in e[..hi];
      } else {
        assert e'[i] == e'[hi..][i - hi] == e[hi..][i - hi];
      }
    }
  }

  // ---------------------------------------------------------------- elements in memory

  function Address(base: nat, i: nat, width: nat): nat {
    base + i * width
  }

  lemma Fits(base: nat, i: nat, count: nat, width: nat)
    requires i < count
    ensures Address(base, i, width) + width <= Address(base, count, width)
  {
    assert (i + 1) * width <= count * width;
  }

  lemma AddressesApart(base: nat, i: nat, j: nat, width: nat)
    requires i < j
    ensures Address(base, i, width) + width <= Address(base, j, width)
  {
    assert (i + 1) * width <= j * width;
  }

  ghost predicate Holds(memory: seq<Byte>, base: nat, count: nat, width: nat)
  {
    Address(base, count, width) <= |memory|
  }

  function ElementAt(memory: seq<Byte>, base: nat, count: nat, width: nat, i: nat): Element
    requires Holds(memory, base, count, width) && i < count
  {
    Fits(base, i, count, width);
    memory[Address(base, i, width)..Address(base, i, width) + width]
  }

  function Elements(memory: seq<Byte>, base: nat, count: nat, width: nat): (elements: seq<Element>)
    requires Holds(memory, base, count, width)
    ensures |elements| == count
    ensures forall i :: 0 <= i < count ==> elements[i] == ElementAt(memory, base, count, width, i)
  {
    seq(count, i requires 0 <= i < count => ElementAt(memory, base, count, width, i))
  }

  function Swapped<T>(s: seq<T>, i: nat, j: nat): (t: seq<T>)
    requires i < |s| && j < |s|
    ensures multiset(t) == multiset(s)
  {
    s[i := s[j]][j := s[i]]
  }

  /** Bytes outside the array keep their values. */
  ghost predicate SameAround(before: seq<Byte>, after: seq<Byte>, lo: nat, hi: nat)
  {
    |before| == |after| && forall k :: 0 <= k < |before| && !(lo <= k < hi) ==> after[k] == before[k]
  }

  /** The bytes [left, left + n) and [right, right + n) have changed places. */
  ghost predicate Exchanged(before: seq<Byte>, after: seq<Byte>, left: nat, right: nat, n: nat)
    requires left + n <= right && right + n <= |before|
  {
    && |after| == |before|
    && (forall k :: left <= k < left + n ==> after[k] == before[right + (k - left)])
    && (forall k :: right <= k < right + n ==> after[k] == before[left + (k - right)])
    && (forall k :: 0 <= k < |before| && !(left <= k < left + n) && !(right <= k < right + n) ==> after[k] == before[k])
  }

  method CopyBetween(dst: array<Byte>, to: nat, src: array<Byte>, from: nat, n: nat)
    requires dst != src || to + n <= from || from + n <= to
    requires to + n <= dst.Length && from + n <= src.Length
    modifies dst
    ensures dst[to..to + n] == old(src[from..from + n])
    ensures dst[..to] == old(dst[..to]) && dst[to + n..] == old(dst[to + n..])
  {
    forall k | 0 <= k < n {
      dst[to + k] := src[from + k];
    }
  }

  /** Exchanges up to a buffer's worth of bytes. */
  method SwapChunk(memory: array<Byte>, buffer: array<Byte>, left: nat, right: nat, n: nat)
    requires memory != buffer && n <= buffer.Length
    requires left + n <= right && right + n <= memory.Length
    modifies memory, buffer
    ensures Exchanged(old(memory[..]), memory[..], left, right, n)
  {
    hide Exchanged;
    ghost var before := memory[..];
    CopyBetween(buffer, 0, memory, left, n);
    CopyBetween(memory, left, memory, right, n);
    ghost var middle := memory[..];
    CopyBetween(memory, right, buffer, 0, n);
    ChunkExchanged(before, middle, memory[..], left, right, n);
  }

  /** Exchanges two elements through a 256-byte buffer, a chunk at a time. */
  method Swap(memory: array<Byte>, left: nat, right: nat, width: nat)
    requires left + width <= right && right + width <= memory.Length
    modifies memory
    ensures Exchanged(old(memory[..]), memory[..], left, right, width)
  {
    hide Exchanged;
    ghost var start := memory[..];
    var buffer := new Byte[BUFFER](_ => 0);
    var done := 0;
    NothingExchanged(start, left, right);
    while done < width
      invariant done <= width
      invariant Exchanged(start, memory[..], left, right, done)
    {
      var chunk := if width - done < BUFFER then width - done else BUFFER;
      ghost var before := memory[..];
      SwapChunk(memory, buffer, left + done, right + done, chunk);
      ExchangedMore(start, before, memory[..], left, right, done, chunk);
      done := done + chunk;
    }
  }

  lemma NothingExchanged(s: seq<Byte>, left: nat, right: nat)
    requires left <= right <= |s|
    ensures Exchanged(s, s, left, right, 0)
  {
  }

  lemma ChunkExchanged(before: seq<Byte>, middle: seq<Byte>, after: seq<Byte>, left: nat, right: nat, n: nat)
    requires left + n <= right && right + n <= |before| && |before| == |middle| == |after|
    requires middle[left..left + n] == before[right..right + n]
    requires middle[..left] == before[..left] && middle[left + n..] == before[left + n..]
    requires after[right..right + n] == before[left..left + n]
    requires after[..right] == middle[..right] && after[right + n..] == middle[right + n..]
    ensures Exchanged(before, after, left, right, n)
  {
    forall k | left <= k < left + n ensures after[k] == before[right + (k - left)] {
      assert after[k] == after[..right][k] == middle[k] == middle[left..left + n][k - left];
    }
    forall k | right <= k < right + n ensures after[k] == before[left + (k - right)] {
      assert after[k] == after[right..right + n][k - right];
    }
    forall k | 0 <= k < |before| && !(left <= k < left + n) && !(right <= k < right + n) ensures after[k] == before[k] {
      if k < right {
        assert after[k] == after[..right][k] == middle[k];
      } else {
        assert after[k] == after[right + n..][k - (right + n)] == middle[k];
      }
      if k < left {
        assert middle[k] == middle[..left][k];
      } else {
        assert middle[k] == middle[left + n..][k - (left + n)];
      }
    }
  }

  lemma ExchangedMore(start: seq<Byte>, before: seq<Byte>, after: seq<Byte>, left: nat, right: nat, done: nat, n: nat)
    requires left + done + n <= right && right + done + n <= |start|
    requires Exchanged(start, before, left, right, done) && Exchanged(before, after, left + done, right + done, n)
    ensures Exchanged(start, after, left, right, done + n)
  {
  }

  /** Exchanging the bytes of two elements exchanges the two elements and nothing else. */
  lemma ElementsSwapped(before: seq<Byte>, after: seq<Byte>, base: nat, count: nat, width: nat, i: nat, j: nat)
    requires Holds(before, base, count, width) && i < j < count
    requires Address(base, i, width) + width <= Address(base, j, width) && Address(base, j, width) + width <= |before|
    requires Exchanged(before, after, Address(base, i, width), Address(base, j, width), width)
    ensures Holds(after, base, count, width)
    ensures Elements(after, base, count, width) == Swapped(Elements(before, base, count, width), i, j)
    ensures SameAround(before, after, base, Address(base, count, width))
  {
    assert |after| == |before| && Holds(after, base, count, width);
    AroundKept(before, after, base, count, width, i, j);
    hide Address, Exchanged, ElementAt, Holds;
    forall m | 0 <= m < count
      ensures ElementAt(after, base, count, width, m) ==
              ElementAt(before, base, count, width, if m == i then j else if m == j then i else m)
    {
      SlotsApart(base, m, i, width);
      SlotsApart(base, m, j, width);
      ElementMoved(before, after, base, count, width, i, j, m, if m == i then j else if m == j then i else m);
    }
  }

  lemma AroundKept(before: seq<Byte>, after: seq<Byte>, base: nat, count: nat, width: nat, i: nat, j: nat)
    requires Holds(before, base, count, width) && i < j < count
    requires Address(base, i, width) + width <= Address(base, j, width) && Address(base, j, width) + width <= |before|
    requires Exchanged(before, after, Address(base, i, width), Address(base, j, width), width)
    ensures SameAround(before, after, base, Address(base, count, width))
  {
    Fits(base, j, count, width);
    BaseFirst(base, i, width);
    hide Address;
  }

  lemma BaseFirst(base: nat, i: nat, width: nat)
    ensures base <= Address(base, i, width)
  {
  }

  lemma SlotsApart(base: nat, m: nat, i: nat, width: nat)
    ensures m == i || Address(base, m, width) + width <= Address(base, i, width)
            || Address(base, i, width) + width <= Address(base, m, width)
  {
    if m < i { AddressesApart(base, m, i, width); }
    if i < m { AddressesApart(base, i, m, width); }
  }

  lemma ElementMoved(before: seq<Byte>, after: seq<Byte>, base: nat, count: nat, width: nat, i: nat, j: nat, m: nat,
      m': nat)
    requires Holds(before, base, count, width) && Holds(after, base, count, width) && i < j < count && m < count
    requires m' == if m == i then j else if m == j then i else m
    requires Address(base, i, width) + width <= Address(base, j, width) && Address(base, j, width) + width <= |before|
    requires Exchanged(before, after, Address(base, i, width), Address(base, j, width), width)
    requires m == i || Address(base, m, width) + width <= Address(base, i, width)
             || Address(base, i, width) + width <= Address(base, m, width)
    requires m == j || Address(base, m, width) + width <= Address(base, j, width)
             || Address(base, j, width) + width <= Address(base, m, width)
    ensures ElementAt(after, base, count, width, m) == ElementAt(before, base, count, width, m')
  {
    hide Address;
    var x, y := ElementAt(after, base, count, width, m), ElementAt(before, base, count, width, m');
    Fits(base, m, count, width);
    Fits(base, m', count, width);
    forall k | 0 <= k < width ensures x[k] == y[k] {
      assert x[k] == after[Address(base, m, width) + k] && y[k] == before[Address(base, m', width) + k];
    }
  }

  // ---------------------------------------------------------------- the heap order

  function Parent(c: nat): (p: nat)
    requires c > 0
    ensures p < c
  {
    (c - 1) / 2
  }

  lemma ParentOf(c: nat, p: nat)
    requires c > 0
    ensures Parent(c) == p <==> c == 2 * p + 1 || c == 2 * p + 2
  {
  }

  /** Below `end`, no element is smaller than a child of its, except perhaps at `hole`, whose
      parent nevertheless dominates its children; parents before `from` are not considered. */
  ghost predicate HeapBut(e: seq<Element>, from: nat, end: nat, hole: nat, le: (Element, Element) -> bool)
    requires end <= |e|
  {
    && (forall c {:trigger e[c]} :: 0 < c < end && from <= Parent(c) && Parent(c) != hole ==> le(e[c], e[Parent(c)]))
    && (forall c {:trigger e[c]} :: 0 < c < end && hole > 0 && Parent(c) == hole && from <= Parent(hole) ==>
      le(e[c], e[Parent(hole)]))
  }

  ghost predicate Heap(e: seq<Element>, from: nat, end: nat, le: (Element, Element) -> bool)
    requires end <= |e|
  {
    forall c {:trigger e[c]} :: 0 < c < end && from <= Parent(c) ==> le(e[c], e[Parent(c)])
  }

  ghost predicate Sorted(e: seq<Element>, le: (Element, Element) -> bool)
  {
    forall i, j :: 0 <= i < j < |e| ==> le(e[i], e[j])
  }

  /** Of any two elements the comparator never says that the one at the lower address comes later. */
  ghost predicate InOrder(memory: seq<Byte>, base: nat, count: nat, width: nat, cmp: Comparator)
  {
    forall i, j :: 0 <= i < j < count ==> NotLater(memory, base, width, cmp, i, j)
  }

  ghost predicate NotLater(memory: seq<Byte>, base: nat, width: nat, cmp: Comparator, i: nat, j: nat)
  {
    && base + i * width + width <= |memory| && base + j * width + width <= |memory|
    && NeverLater(cmp, memory[base + i * width..base + i * width + width],
         memory[base + j * width..base + j * width + width])
  }

  ghost predicate NeverLater(cmp: Comparator, x: Element, y: Element) {
    forall k :: cmp(k, x, y) <= 0
  }

  lemma SortedInOrder(memory: seq<Byte>, base: nat, count: nat, width: nat, cmp: Comparator,
      le: (Element, Element) -> bool, known: seq<Element>)
    requires Holds(memory, base, count, width) && Sorted(Elements(memory, base, count, width), le)
    requires Within(Elements(memory, base, count, width), known) && OrdersOn(cmp, le, known)
    ensures InOrder(memory, base, count, width, cmp)
  {
    var e := Elements(memory, base, count, width);
    forall i, j | 0 <= i < j < count ensures NotLater(memory, base, width, cmp, i, j) {
      Fits(base, i, count, width);
      Fits(base, j, count, width);
      assert e[i] == memory[base + i * width..base + i * width + width];
      assert e[j] == memory[base + j * width..base + j * width + width];
      assert le(e[i], e[j]) && e[i] in known && e[j] in known;
    }
  }

  /** The root of a heap is its largest element. */
  lemma {:induction false} RootIsLargest(e: seq<Element>, end: nat, le: (Element, Element) -> bool, i: nat)
    requires i < end <= |e| && Heap(e, 0, end, le)
    requires (forall x, y :: le(x, y) || le(y, x)) && (forall x, y, z :: le(x, y) && le(y, z) ==> le(x, z))
    ensures le(e[i], e[0])
  {
    if i != 0 {
      assert le(e[i], e[Parent(i)]);
      RootIsLargest(e, end, le, Parent(i));
    }
  }

  /** No child of `root` is larger than its child `child`. */
  ghost predicate Dominates(e: seq<Element>, root: nat, end: nat, child: nat, le: (Element, Element) -> bool)
    requires end <= |e|
  {
    && child < end && (child == 2 * root + 1 || child == 2 * root + 2)
    && le(e[2 * root + 1], e[child])
    && (2 * root + 2 < end ==> le(e[2 * root + 2], e[child]))
  }

  /** Moving the larger child up leaves the only disorder where the child was. */
  lemma HoleMovesDown(e: seq<Element>, from: nat, end: nat, hole: nat, child: nat, le: (Element, Element) -> bool)
    requires end <= |e| && from <= hole < end && HeapBut(e, from, end, hole, le)
    requires (forall x, y :: le(x, y) || le(y, x)) && (forall x, y, z :: le(x, y) && le(y, z) ==> le(x, z))
    requires Dominates(e, hole, end, child, le)
    requires !le(e[child], e[hole])
    ensures HeapBut(Swapped(e, hole, child), from, end, child, le)
  {
    hide Parent, Swapped;
    var e' := Swapped(e, hole, child);
    ParentOf(child, hole);
    SwappedAt(e, hole, child);
    forall c {:trigger e'[c]} | 0 < c < end && from <= Parent(c)
      && Parent(c) != child ensures le(e'[c], e'[Parent(c)]) {
      ParentOf(c, hole);
      if c == hole {
        assert le(e[child], e[Parent(hole)]);
      } else if Parent(c) != hole {
        assert le(e[c], e[Parent(c)]);
      }
    }
    forall c {:trigger e'[c]} | 0 < c < end && Parent(c) == child ensures le(e'[c], e'[Parent(child)]) {
      assert le(e[c], e[Parent(c)]);
    }
  }

  lemma SwappedAt(e: seq<Element>, i: nat, j: nat)
    requires i < |e| && j < |e|
    ensures |Swapped(e, i, j)| == |e|
    ensures forall c :: 0 <= c < |e| ==> Swapped(e, i, j)[c] == e[if c == i then j else if c == j then i else c]
  {
  }

  lemma HoleFilled(e: seq<Element>, from: nat, end: nat, hole: nat, child: nat, le: (Element, Element) -> bool)
    requires end <= |e| && hole < end && HeapBut(e, from, end, hole, le)
    requires Dominates(e, hole, end, child, le) && le(e[child], e[hole])
    requires forall x, y, z :: le(x, y) && le(y, z) ==> le(x, z)
    ensures Heap(e, from, end, le)
  {
    forall c {:trigger e[c]} | 0 < c < end && from <= Parent(c) ensures le(e[c], e[Parent(c)]) {
      ParentOf(c, hole);
    }
  }

  lemma LeafFilled(e: seq<Element>, from: nat, end: nat, hole: nat, le: (Element, Element) -> bool)
    requires hole < end <= |e| && end <= 2 * hole + 1 && HeapBut(e, from, end, hole, le)
    ensures Heap(e, from, end, le)
  {
    forall c {:trigger e[c]} | 0 < c < end && from <= Parent(c) ensures le(e[c], e[Parent(c)]) {
      ParentOf(c, hole);
    }
  }

  // ---------------------------------------------------------------- the sort

  /** What every part of the sort keeps: the elements are the same ones, those outside
      [lo, hi) stay where they are, and no byte outside the array changes. */
  ghost predicate Rearranged(before: seq<Byte>, after: seq<Byte>, base: nat, count: nat, width: nat, hi: nat)
    requires Holds(before, base, count, width) && hi <= count
  {
    && Holds(after, base, count, width)
    && SameAround(before, after, base, Address(base, count, width))
    && var e, e' := Elements(before, base, count, width), Elements(after, base, count, width);
       multiset(e'[..hi]) == multiset(e[..hi]) && e'[hi..] == e[hi..]
  }

  lemma RearrangedSelf(memory: seq<Byte>, base: nat, count: nat, width: nat, hi: nat)
    requires Holds(memory, base, count, width) && hi <= count
    ensures Rearranged(memory, memory, base, count, width, hi)
  {
  }

  lemma RearrangedMore(a: seq<Byte>, b: seq<Byte>, c: seq<Byte>, base: nat, count: nat, width: nat, hi: nat)
    requires Holds(a, base, count, width) && hi <= count
    requires Rearranged(a, b, base, count, width, hi) && Rearranged(b, c, base, count, width, hi)
    ensures Rearranged(a, c, base, count, width, hi)
  {
  }

  lemma SwapRearranges(before: seq<Byte>, after: seq<Byte>, base: nat, count: nat, width: nat, hi: nat, i: nat, j: nat)
    requires Holds(before, base, count, width) && Holds(after, base, count, width) && i < j < hi <= count
    requires Elements(after, base, count, width) == Swapped(Elements(before, base, count, width), i, j)
    requires SameAround(before, after, base, Address(base, count, width))
    ensures Rearranged(before, after, base, count, width, hi)
  {
    var e, e' := Elements(before, base, count, width), Elements(after, base, count, width);
    assert e'[..hi] == Swapped(e[..hi], i, j);
  }

  /** Every address is that of an element of the array, all of whose bytes lie inside it. */
  ghost predicate OwnElements(addresses: set<nat>, base: nat, count: nat, width: nat)
  {
    forall a :: a in addresses ==> exists i :: 0 <= i < count && OwnElement(a, base, count, width, i)
  }

  ghost predicate OwnElement(a: nat, base: nat, count: nat, width: nat, i: nat)
  {
    a == Address(base, i, width) && base <= a && a + width <= Address(base, count, width)
  }

  /** Calls the comparator on two elements of the array; `calls` counts the calls, and `seen` holds the
      addresses handed to it. */
  method Compare(memory: array<Byte>, base: nat, count: nat, width: nat, cmp: Comparator, calls: nat, i: nat, j: nat,
      ghost seen: set<nat>)
      returns (r: int, calls': nat, ghost seen': set<nat>)
    requires Holds(memory[..], base, count, width) && i < count && j < count && OwnElements(seen, base, count, width)
    ensures seen' == seen + {Address(base, i, width), Address(base, j, width)}
    ensures OwnElements(seen', base, count, width)
    ensures r == cmp(calls, Elements(memory[..], base, count, width)[i], Elements(memory[..], base, count, width)[j])
    ensures calls' == calls + 1
  {
    seen' := seen + {Address(base, i, width), Address(base, j, width)};
    assert OwnElement(Address(base, i, width), base, count, width, i) by {
      Fits(base, i, count, width);
      BaseFirst(base, i, width);
    }
    assert OwnElement(Address(base, j, width), base, count, width, j) by {
      Fits(base, j, count, width);
      BaseFirst(base, j, width);
    }
    Fits(base, i, count, width);
    Fits(base, j, count, width);
    BaseFirst(base, i, width);
    BaseFirst(base, j, width);
    var left, right := base + i * width, base + j * width;
    r, calls' := cmp(calls, memory[left..left + width], memory[right..right + width]), calls + 1;
  }

  method SwapElements(memory: array<Byte>, base: nat, count: nat, width: nat, i: nat, j: nat, ghost hi: nat)
    requires Holds(memory[..], base, count, width) && i < j < hi <= count
    modifies memory
    ensures Rearranged(old(memory[..]), memory[..], base, count, width, hi)
    ensures Elements(memory[..], base, count, width) == Swapped(Elements(old(memory[..]), base, count, width), i, j)
  {
    AddressesApart(base, i, j, width);
    Fits(base, j, count, width);
    Swap(memory, base + i * width, base + j * width, width);
    ElementsSwapped(old(memory[..]), memory[..], base, count, width, i, j);
    SwapRearranges(old(memory[..]), memory[..], base, count, width, hi, i, j);
  }

  /** The larger of the one or two children of `root`. */
  method LargerChild(memory: array<Byte>, base: nat, count: nat, width: nat, cmp: Comparator, calls: nat, root: nat,
      end: nat, ghost le: (Element, Element) -> bool, ghost known: seq<Element>, ghost seen: set<nat>)
      returns (child: nat, calls': nat, ghost seen': set<nat>)
    requires OwnElements(seen, base, count, width) && Holds(memory[..], base, count, width)
    requires 2 * root + 1 < end <= count
    requires Within(Elements(memory[..], base, count, width), known)
    ensures OwnElements(seen', base, count, width)
    ensures child < end && (child == 2 * root + 1 || child == 2 * root + 2)
    ensures Orders(cmp, le, known) ==> Dominates(Elements(memory[..], base, count, width), root, end, child, le)
  {
    hide Holds, OwnElements;
    child, calls', seen' := root * 2 + 1, calls, seen;
    if child + 1 < end {
      var r;
      r, calls', seen' := Compare(memory, base, count, width, cmp, calls', child, child + 1, seen');
      if r < 0 {
        child := child + 1;
      }
    }
  }

  /** Lets the element at `start` sink among the first `end` elements. */
  method SiftDown(memory: array<Byte>, base: nat, count: nat, width: nat, cmp: Comparator, calls: nat, start: nat,
      end: nat, ghost le: (Element, Element) -> bool, ghost known: seq<Element>, ghost seen: set<nat>)
      returns (calls': nat, ghost seen': set<nat>)
    requires OwnElements(seen, base, count, width) && Holds(memory[..], base, count, width) && start < end <= count
    requires Within(Elements(memory[..], base, count, width), known)
    requires Orders(cmp, le, known) ==> HeapBut(Elements(memory[..], base, count, width), start, end, start, le)
    modifies memory
    ensures OwnElements(seen', base, count, width)
    ensures Rearranged(old(memory[..]), memory[..], base, count, width, end)
    ensures Orders(cmp, le, known) ==> Heap(Elements(memory[..], base, count, width), start, end, le)
  {
    hide Rearranged, Holds, Heap, HeapBut, Address, Exchanged, Dominates, Within, OwnElements;
    calls', seen' := calls, seen;
    var root := start;
    RearrangedSelf(memory[..], base, count, width, end);
    while true
      invariant start <= root < end && OwnElements(seen', base, count, width)
      invariant Holds(memory[..], base, count, width)
      invariant Rearranged(old(memory[..]), memory[..], base, count, width, end)
      invariant Within(Elements(memory[..], base, count, width), known)
      invariant Orders(cmp, le, known) ==> HeapBut(Elements(memory[..], base, count, width), start, end, root, le)
      decreases end - root
    {
      ghost var before := memory[..];
      ghost var e := Elements(before, base, count, width);
      if root * 2 + 1 >= end {
        if Orders(cmp, le, known) { LeafFilled(e, start, end, root, le); }
        return;
      }
      var child, r;
      child, calls', seen' := LargerChild(memory, base, count, width, cmp, calls', root, end, le, known, seen');
      r, calls', seen' := Compare(memory, base, count, width, cmp, calls', root, child, seen');
      KnownAt(e, known, root);
      KnownAt(e, known, child);
      if r >= 0 {
        if Orders(cmp, le, known) { HoleFilled(e, start, end, root, child, le); }
        return;
      }
      if Orders(cmp, le, known) { HoleMovesDown(e, start, end, root, child, le); }
      SwapElements(memory, base, count, width, root, child, end);
      HoldsKept(before, memory[..], base, count, width, end);
      WithinKept(before, memory[..], base, count, width, end, known);
      RearrangedMore(old(memory[..]), before, memory[..], base, count, width, end);
      root := child;
    }
  }

  lemma KnownAt(e: seq<Element>, known: seq<Element>, i: nat)
    requires Within(e, known) && i < |e|
    ensures e[i] in known
  {
  }

  lemma HoldsKept(before: seq<Byte>, after: seq<Byte>, base: nat, count: nat, width: nat, hi: nat)
    requires Holds(before, base, count, width) && hi <= count && Rearranged(before, after, base, count, width, hi)
    ensures Holds(after, base, count, width)
  {
  }

  /** Building the heap: one more root is brought into order. */
  lemma HeapGrows(e: seq<Element>, start: nat, end: nat, le: (Element, Element) -> bool)
    requires end <= |e| && Heap(e, start + 1, end, le)
    ensures HeapBut(e, start, end, start, le)
  {
  }

  lemma LeavesAreHeap(e: seq<Element>, end: nat, le: (Element, Element) -> bool)
    requires end <= |e|
    ensures Heap(e, end / 2, end, le)
  {
    assert forall c :: 0 < c < end ==> Parent(c) < end / 2;
  }

  /** The elements from `end` on are in their final places. */
  ghost predicate Settled(e: seq<Element>, end: nat, le: (Element, Element) -> bool)
  {
    forall i, j :: 0 <= i < j < |e| && end <= j ==> le(e[i], e[j])
  }

  /** Moving the root behind the shrinking heap settles one more place. */
  lemma RootSettles(e: seq<Element>, end: nat, le: (Element, Element) -> bool)
    requires 0 < end < |e| && Heap(e, 0, end + 1, le) && Settled(e, end + 1, le)
    requires (forall x, y :: le(x, y) || le(y, x)) && (forall x, y, z :: le(x, y) && le(y, z) ==> le(x, z))
    ensures Settled(Swapped(e, 0, end), end, le) && HeapBut(Swapped(e, 0, end), 0, end, 0, le)
  {
    var e' := Swapped(e, 0, end);
    forall i, j | 0 <= i < j < |e'| && end <= j ensures le(e'[i], e'[j]) {
      if j == end {
        RootIsLargest(e, end + 1, le, if i == 0 then end else i);
      }
    }
    forall c {:trigger e'[c]} | 0 < c < end && Parent(c) != 0 ensures le(e'[c], e'[Parent(c)]) {
      assert le(e[c], e[Parent(c)]);
    }
  }

  /** Rearranging what lies before `end` cannot unsettle what lies from `end` on. */
  lemma StaysSettled(e: seq<Element>, e': seq<Element>, end: nat, le: (Element, Element) -> bool)
    requires end <= |e| == |e'| && multiset(e'[..end]) == multiset(e[..end]) && e'[end..] == e[end..]
    requires Settled(e, end, le)
    ensures Settled(e', end, le)
  {
    forall i, j | 0 <= i < j < |e'| && end <= j ensures le(e'[i], e'[j]) {
      assert e'[j] == e'[end..][j - end] == e[j];
      if i < end {
        assert e'[..end][i] in multiset(e'[..end]);
        var k :| 0 <= k < end && e[..end][k] == e'[i];
        assert le(e[k], e[j]);
      } else {
        assert e'[i] == e'[end..][i - end] == e[i];
      }
    }
  }

  lemma RearrangedAll(before: seq<Byte>, after: seq<Byte>, base: nat, count: nat, width: nat, hi: nat)
    requires Holds(before, base, count, width) && hi <= count && Rearranged(before, after, base, count, width, hi)
    ensures Rearranged(before, after, base, count, width, count)
  {
    var e, e' := Elements(before, base, count, width), Elements(after, base, count, width);
    assert e == e[..hi] + e[hi..] && e' == e'[..hi] + e'[hi..];
    assert e[..count] == e && e'[..count] == e';
  }

  lemma NothingLeft(e: seq<Element>, end: nat, le: (Element, Element) -> bool)
    requires end <= 1 && Settled(e, end, le)
    ensures Sorted(e, le)
  {
  }

  lemma SettledAtEnd(e: seq<Element>, le: (Element, Element) -> bool)
    ensures Settled(e, |e|, le)
  {
  }

  /** Brings the whole array into heap order. */
  method BuildHeap(memory: array<Byte>, base: nat, count: nat, width: nat, cmp: Comparator,
      ghost le: (Element, Element) -> bool, ghost known: seq<Element>)
      returns (calls: nat, ghost seen: set<nat>)
    requires Holds(memory[..], base, count, width) && Within(Elements(memory[..], base, count, width), known)
    modifies memory
    ensures OwnElements(seen, base, count, width)
    ensures Rearranged(old(memory[..]), memory[..], base, count, width, count)
    ensures Orders(cmp, le, known) ==> Heap(Elements(memory[..], base, count, width), 0, count, le)
  {
    calls, seen := 0, {};
    assert OwnElements(seen, base, count, width);
    hide Rearranged, Holds, Heap, HeapBut, Within, OwnElements;
    var start: nat := count / 2;
    RearrangedSelf(memory[..], base, count, width, count);
    LeavesAreHeap(Elements(memory[..], base, count, width), count, le);
    while start > 0
      invariant start <= count / 2 && OwnElements(seen, base, count, width)
      invariant Holds(memory[..], base, count, width)
      invariant Rearranged(old(memory[..]), memory[..], base, count, width, count)
      invariant Within(Elements(memory[..], base, count, width), known)
      invariant Orders(cmp, le, known) ==> Heap(Elements(memory[..], base, count, width), start, count, le)
    {
      start := start - 1;
      ghost var before := memory[..];
      if Orders(cmp, le, known) { HeapGrows(Elements(before, base, count, width), start, count, le); }
      calls, seen := SiftDown(memory, base, count, width, cmp, calls, start, count, le, known, seen);
      HoldsKept(before, memory[..], base, count, width, count);
      WithinKept(before, memory[..], base, count, width, count, known);
      RearrangedMore(old(memory[..]), before, memory[..], base, count, width, count);
    }
  }

  /** qsort. For any comparator at all it ends, keeps exactly the same elements, touches no other byte
      and hands the comparator addresses of elements of the array only; for a comparator that
      answers by a total preorder on those elements it sorts. */
  method Sort(memory: array<Byte>, base: nat, count: nat, width: nat, cmp: Comparator,
      ghost le: (Element, Element) -> bool) returns (ghost seen: set<nat>)
    requires Holds(memory[..], base, count, width)
    modifies memory
    ensures OwnElements(seen, base, count, width)
    ensures Holds(memory[..], base, count, width)
    ensures multiset(Elements(memory[..], base, count, width)) ==
            multiset(Elements(old(memory[..]), base, count, width))
    ensures SameAround(old(memory[..]), memory[..], base, Address(base, count, width))
    ensures OrdersOn(cmp, le, Elements(old(memory[..]), base, count, width)) ==>
            Sorted(Elements(memory[..], base, count, width), le) && InOrder(memory[..], base, count, width, cmp)
  {
    hide NotLater, InOrder;
    ghost var known := Elements(memory[..], base, count, width);
    if OrdersOn(cmp, le, known) { ExtendedOrders(cmp, le, known); }
    seen := SortBy(memory, base, count, width, cmp, Extended(le, known), known);
    if OrdersOn(cmp, le, known) {
      WithinKept(old(memory[..]), memory[..], base, count, width, count, known);
      SortedExtended(Elements(memory[..], base, count, width), le, known);
      SortedInOrder(memory[..], base, count, width, cmp, le, known);
    }
    SameElements(old(memory[..]), memory[..], base, count, width);
  }

  /** The sort for an order on all elements. */
  method SortBy(memory: array<Byte>, base: nat, count: nat, width: nat, cmp: Comparator,
      ghost le: (Element, Element) -> bool, ghost known: seq<Element>) returns (ghost seen: set<nat>)
    requires Holds(memory[..], base, count, width) && Within(Elements(memory[..], base, count, width), known)
    modifies memory
    ensures Holds(memory[..], base, count, width) && Rearranged(old(memory[..]), memory[..], base, count, width, count)
    ensures Orders(cmp, le, known) ==> Sorted(Elements(memory[..], base, count, width), le)
    ensures OwnElements(seen, base, count, width)
  {
    hide Rearranged, Holds, Heap, HeapBut, Settled, Sorted, Within, OwnElements;
    ghost var start := memory[..];
    var calls;
    calls, seen := BuildHeap(memory, base, count, width, cmp, le, known);
    HoldsKept(start, memory[..], base, count, width, count);
    WithinKept(start, memory[..], base, count, width, count, known);
    SettledAtEnd(Elements(memory[..], base, count, width), le);
    var end: nat := count;
    while end > 1
      invariant end <= count && OwnElements(seen, base, count, width)
      invariant Holds(memory[..], base, count, width)
      invariant Rearranged(start, memory[..], base, count, width, count)
      invariant Within(Elements(memory[..], base, count, width), known)
      invariant Orders(cmp, le, known) ==> Heap(Elements(memory[..], base, count, width), 0, end, le)
      invariant Orders(cmp, le, known) ==> Settled(Elements(memory[..], base, count, width), end, le)
    {
      end := end - 1;
      ghost var before := memory[..];
      if Orders(cmp, le, known) { RootSettles(Elements(before, base, count, width), end, le); }
      SwapElements(memory, base, count, width, 0, end, count);
      HoldsKept(before, memory[..], base, count, width, count);
      ghost var swapped := memory[..];
      WithinKept(before, swapped, base, count, width, count, known);
      calls, seen := SiftDown(memory, base, count, width, cmp, calls, 0, end, le, known, seen);
      HoldsKept(swapped, memory[..], base, count, width, end);
      WithinKept(swapped, memory[..], base, count, width, end, known);
      if Orders(cmp, le, known) { SiftKeepsSettled(swapped, memory[..], base, count, width, end, le); }
      RearrangedAll(swapped, memory[..], base, count, width, end);
      RearrangedMore(start, before, swapped, base, count, width, count);
      RearrangedMore(start, swapped, memory[..], base, count, width, count);
    }
    if Orders(cmp, le, known) { NothingLeft(Elements(memory[..], base, count, width), end, le); }
  }

  lemma SiftKeepsSettled(before: seq<Byte>, after: seq<Byte>, base: nat, count: nat, width: nat, end: nat,
      le: (Element, Element) -> bool)
    requires Holds(before, base, count, width) && Holds(after, base, count, width) && end <= count
    requires Rearranged(before, after, base, count, width, end)
    requires Settled(Elements(before, base, count, width), end, le)
    ensures Settled(Elements(after, base, count, width), end, le)
  {
    StaysSettled(Elements(before, base, count, width), Elements(after, base, count, width), end, le);
  }

  lemma SameElements(before: seq<Byte>, after: seq<Byte>, base: nat, count: nat, width: nat)
    requires Holds(before, base, count, width) && Holds(after, base, count, width)
    requires Rearranged(before, after, base, count, width, count)
    ensures multiset(Elements(after, base, count, width)) == multiset(Elements(before, base, count, width))
    ensures SameAround(before, after, base, Address(base, count, width))
  {
    var e, e' := Elements(before, base, count, width), Elements(after, base, count, width);
    assert e[..count] == e && e'[..count] == e';
  }
}
