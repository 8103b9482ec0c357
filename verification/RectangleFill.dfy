/** Filling a rectangle of a surface (native/src/chuzzle.inc). */
module RectangleFill {
  import opened Bytes
  import opened Options

  datatype Rect = Rect(x: int, y: int, width: int, height: int)

  /** Where a surface's pixels are; 0 stands for a surface without any. */
  datatype Surface = Surface(pixels: nat, hasFormat: bool, width: nat, height: nat, pitch: nat, bytes: nat)

  /** A row ends before the next begins. */
  predicate Apart(s: Surface)
  {
    s.width * s.bytes <= s.pitch
  }

  predicate Inside(r: Rect, column: int, row: int) {
    r.x <= column < r.x + r.width && r.y <= row < r.y + r.height
  }

  function Asked(s: Surface, rect: Option<Rect>): Rect {
    if rect.Some? then rect.value else Rect(0, 0, s.width, s.height)
  }

  /** The part of a rectangle that is filled, as the code computes it. */
  function Clipped(s: Surface, r: Rect): (c: Rect)
    ensures 0 <= c.x && 0 <= c.y && c.x + c.width <= s.width && c.y + c.height <= s.height
    ensures forall column, row :: 0 <= column < s.width && 0 <= row < s.height ==>
            (Inside(c, column, row) <==> Inside(r, column, row))
  {
    var w, x := if r.x < 0 then r.width + r.x else r.width, if r.x < 0 then 0 else r.x;
    var h, y := if r.y < 0 then r.height + r.y else r.height, if r.y < 0 then 0 else r.y;
    Rect(x, y, if x + w > s.width then s.width - x else w, if y + h > s.height then s.height - y else h)
  }

  /** The address of a pixel. */
  function At(s: Surface, row: nat, column: nat): (a: nat)
  {
    s.pixels + row * s.pitch + column * s.bytes
  }

  /** What is to be filled of each row is in memory. */
  predicate InMemory(s: Surface, c: Rect, size: nat)
    requires 0 <= c.x && 0 <= c.y && 0 <= c.width
  {
    forall row :: c.y <= row < c.y + c.height ==> RowInMemory(s, c, row, size)
  }

  predicate RowInMemory(s: Surface, c: Rect, row: nat, size: nat)
    requires 0 <= c.x && 0 <= c.width
  {
    At(s, row, c.x + c.width) <= size
  }

  function ColourByte(colour: nat, k: nat): Byte
    requires k < 4
  {
    (if k == 0 then colour else if k == 1 then colour / 0x100 else if k == 2 then colour / 0x1_0000
      else colour / 0x100_0000) % 0x100
  }

  // ---------------------------------------------------------------- rows

  lemma RowsApart(s: Surface, r: nat, r': nat, column: nat)
    requires Apart(s) && r < r' && column <= s.width
    ensures At(s, r, column) <= At(s, r', 0)
  {
    ColumnFits(column, s.width, s.bytes);
    RowsFit(r + 1, r', s.pitch);
    assert (r + 1) * s.pitch == r * s.pitch + s.pitch;
  }

  lemma ColumnFits(column: nat, width: nat, bytes: nat)
    requires column <= width
    ensures column * bytes <= width * bytes
  {
    assert (width - column) * bytes >= 0;
  }

  lemma RowsFit(r: nat, r': nat, pitch: nat)
    requires r <= r'
    ensures r * pitch <= r' * pitch
  {
    assert (r' - r) * pitch >= 0;
  }

  lemma PixelEnds(s: Surface, row: nat, column: nat)
    ensures At(s, row, column) + s.bytes == At(s, row, column + 1)
  {
    assert (column + 1) * s.bytes == column * s.bytes + s.bytes;
  }

  lemma ColumnsInOrder(s: Surface, row: nat, column: nat, column': nat)
    requires column <= column'
    ensures At(s, row, column) <= At(s, row, column')
  {
    ColumnFits(column, column', s.bytes);
  }

  /** Byte `k` of the pixel at a column. */
  predicate PixelIs(memory: seq<Byte>, s: Surface, row: nat, column: nat, colour: nat)
    requires s.bytes <= 4
  {
    At(s, row, column) + s.bytes <= |memory| &&
    forall k :: 0 <= k < s.bytes ==> memory[At(s, row, column) + k] == ColourByte(colour, k)
  }

  /** Bytes between two addresses may differ, no others. */
  ghost predicate OnlyBetween(before: seq<Byte>, after: seq<Byte>, lo: nat, hi: nat)
  {
    |before| == |after| && forall a :: 0 <= a < |before| && !(lo <= a < hi) ==> after[a] == before[a]
  }

  lemma PixelStays(before: seq<Byte>, after: seq<Byte>, lo: nat, hi: nat, s: Surface, row: nat, column: nat,
      colour: nat)
    requires s.bytes <= 4 && OnlyBetween(before, after, lo, hi)
    requires PixelIs(before, s, row, column, colour) && (At(s, row, column + 1) <= lo || hi <= At(s, row, column))
    ensures PixelIs(after, s, row, column, colour)
  {
    PixelEnds(s, row, column);
    hide At, ColourByte;
  }

  /** Fills pixels from `column` on, one after the other. */
  method FillRow(memory: array<Byte>, s: Surface, row: nat, column: nat, count: nat, colour: nat)
    requires 0 < s.bytes <= 4 && At(s, row, column + count) <= memory.Length
    modifies memory
    ensures OnlyBetween(old(memory[..]), memory[..], At(s, row, column), At(s, row, column + count))
    ensures forall c :: column <= c < column + count ==> PixelIs(memory[..], s, row, c, colour)
  {
    hide PixelIs;
    var out, i := At(s, row, column), 0;
    while i < count
      invariant i <= count && out == At(s, row, column + i)
      invariant OnlyBetween(old(memory[..]), memory[..], At(s, row, column), out)
      invariant forall c :: column <= c < column + i ==> PixelIs(memory[..], s, row, c, colour)
    {
      PixelEnds(s, row, column + i);
      ColumnsInOrder(s, row, column + i + 1, column + count);
      ColumnsInOrder(s, row, column, column + i);
      hide At;
      ghost var before := memory[..];
      FillPixel(memory, s, row, column + i, out, colour);
      forall c | column <= c < column + i ensures PixelIs(memory[..], s, row, c, colour) {
        ColumnsInOrder(s, row, c + 1, column + i);
        PixelStays(before, memory[..], out, out + s.bytes, s, row, c, colour);
      }
      out := out + s.bytes;
      i := i + 1;
    }
  }

  method FillPixel(memory: array<Byte>, s: Surface, row: nat, column: nat, out: nat, colour: nat)
    requires 0 < s.bytes <= 4 && out == At(s, row, column) && out + s.bytes <= memory.Length
    modifies memory
    ensures OnlyBetween(old(memory[..]), memory[..], out, out + s.bytes) && PixelIs(memory[..], s, row, column, colour)
  {
    hide ColourByte;
    forall k | 0 <= k < s.bytes {
      memory[out + k] := ColourByte(colour, k);
    }
  }

  // ---------------------------------------------------------------- the rectangle

  /** No byte outside the first `rows` rows of the clipped rectangle has changed. */
  ghost predicate OnlyRows(before: seq<Byte>, after: seq<Byte>, s: Surface, c: Rect, rows: nat)
    requires 0 <= c.x && 0 <= c.y && 0 <= c.width
  {
    && |before| == |after|
    && forall a :: 0 <= a < |before| && (forall r :: c.y <= r < c.y + rows ==> !InRow(s, c, r, a)) ==>
      after[a] == before[a]
  }

  predicate InRow(s: Surface, c: Rect, r: nat, a: nat)
    requires 0 <= c.x && 0 <= c.width
  {
    At(s, r, c.x) <= a < At(s, r, c.x + c.width)
  }

  /** No row of the rectangle after row `r` covers the address. */
  ghost predicate NoLaterRow(s: Surface, c: Rect, rows: nat, r: nat, a: nat)
    requires 0 <= c.x && 0 <= c.y && 0 <= c.width
  {
    forall later :: r < later < c.y + rows ==> !InRow(s, c, later, a)
  }

  /** Each byte holds the colour as the last row that covers it wrote it. */
  ghost predicate RowsFilled(memory: seq<Byte>, s: Surface, c: Rect, rows: nat, colour: nat)
    requires 0 <= c.x && 0 <= c.y && 0 <= c.width && s.bytes <= 4
  {
    forall r, column, a :: c.y <= r < c.y + rows && c.x <= column < c.x + c.width ==>
      ByteFilled(memory, s, c, rows, r, column, a, colour)
  }

  /** Address `a` holds its byte of the colour if it is in this pixel and in no later row. */
  ghost predicate ByteFilled(memory: seq<Byte>, s: Surface, c: Rect, rows: nat, r: nat, column: nat, a: int,
      colour: nat)
    requires 0 <= c.x && 0 <= c.y && 0 <= c.width && s.bytes <= 4
  {
    At(s, r, column) <= a < At(s, r, column) + s.bytes && NoLaterRow(s, c, rows, r, a) ==>
      a < |memory| && memory[a] == ColourByte(colour, a - At(s, r, column))
  }

  /** The row loop. */
  method FillRows(memory: array<Byte>, s: Surface, c: Rect, colour: nat)
    requires 0 < s.bytes <= 4 && 0 <= c.x && 0 <= c.y && 0 < c.width && 0 < c.height
    requires InMemory(s, c, memory.Length)
    modifies memory
    ensures OnlyRows(old(memory[..]), memory[..], s, c, c.height) && RowsFilled(memory[..], s, c, c.height, colour)
  {
    hide At, PixelIs, RowsFilled, OnlyRows, OnlyBetween;
    var row := 0;
    NoRows(memory[..], s, c, colour);
    while row < c.height
      invariant row <= c.height
      invariant OnlyRows(old(memory[..]), memory[..], s, c, row) && RowsFilled(memory[..], s, c, row, colour)
    {
      ghost var before := memory[..];
      assert RowInMemory(s, c, c.y + row, memory.Length);
      FillRow(memory, s, c.y + row, c.x, c.width, colour);
      RowOver(before, memory[..], s, c, row, c.y + row, colour);
      OneMoreRow(old(memory[..]), before, memory[..], s, c, row);
      row := row + 1;
    }
  }

  lemma NoRows(memory: seq<Byte>, s: Surface, c: Rect, colour: nat)
    requires 0 <= c.x && 0 <= c.y && 0 <= c.width && s.bytes <= 4
    ensures OnlyRows(memory, memory, s, c, 0) && RowsFilled(memory, s, c, 0, colour)
  {
  }

  /** A row written over what was there. */
  lemma RowOver(before: seq<Byte>, after: seq<Byte>, s: Surface, c: Rect, row: nat, last: nat, colour: nat)
    requires 0 <= c.x && 0 <= c.y && 0 <= c.width && s.bytes <= 4 && RowsFilled(before, s, c, row, colour)
    requires last == c.y + row && OnlyBetween(before, after, At(s, last, c.x), At(s, last, c.x + c.width))
    requires forall column :: c.x <= column < c.x + c.width ==> PixelIs(after, s, last, column, colour)
    ensures RowsFilled(after, s, c, row + 1, colour)
  {
    hide At, ColourByte;
    var rows := row + 1;
    forall r, column, a | c.y <= r < c.y + rows && c.x <= column < c.x + c.width
      ensures ByteFilled(after, s, c, rows, r, column, a, colour) {
      if At(s, r, column) <= a < At(s, r, column) + s.bytes && NoLaterRow(s, c, rows, r, a) {
        if r == last {
          assert PixelIs(after, s, last, column, colour);
          assert after[At(s, r, column) + (a - At(s, r, column))] == ColourByte(colour, a - At(s, r, column));
        } else {
          assert !InRow(s, c, last, a);
          assert NoLaterRow(s, c, row, r, a);
          assert ByteFilled(before, s, c, row, r, column, a, colour);
        }
      }
    }
  }

  lemma OneMoreRow(start: seq<Byte>, before: seq<Byte>, after: seq<Byte>, s: Surface, c: Rect, row: nat)
    requires 0 <= c.x && 0 <= c.y && 0 <= c.width && OnlyRows(start, before, s, c, row)
    requires OnlyBetween(before, after, At(s, c.y + row, c.x), At(s, c.y + row, c.x + c.width))
    ensures OnlyRows(start, after, s, c, row + 1)
  {
    hide At;
    forall a | 0 <= a < |start| && (forall r :: c.y <= r < c.y + row + 1 ==> !InRow(s, c, r, a)) ensures after[a] ==
      start[a] {
      assert !InRow(s, c, c.y + row, a);
      assert forall r :: c.y <= r < c.y + row ==> !InRow(s, c, r, a);
    }
  }

  /** Whether a call fills anything. */
  predicate Fills(s: Surface, rect: Option<Rect>) {
    s.pixels != 0 && s.hasFormat && 0 < s.bytes <= 4 &&
    Clipped(s, Asked(s, rect)).width > 0 && Clipped(s, Asked(s, rect)).height > 0
  }

  /** Every pixel of the surface inside the rectangle has the colour, every other is what it was. */
  ghost predicate Painted(before: seq<Byte>, after: seq<Byte>, s: Surface, r: Rect, colour: nat)
    requires s.bytes <= 4
  {
    forall row, column :: 0 <= row < s.height && 0 <= column < s.width ==>
      if Inside(r, column, row) then PixelIs(after, s, row, column, colour)
      else PixelSame(before, after, s, row, column)
  }

  ghost predicate PixelSame(before: seq<Byte>, after: seq<Byte>, s: Surface, row: nat, column: nat)
  {
    |before| == |after| &&
    forall a :: At(s, row, column) <= a < At(s, row, column) + s.bytes && a < |before| ==> after[a] == before[a]
  }

  /** A pixel outside the filled rectangle is in none of its rows. */
  lemma PixelOutside(s: Surface, c: Rect, row: nat, column: nat, k: nat, r: nat)
    requires Apart(s) && 0 <= c.x && 0 <= c.y && 0 <= c.width && c.x + c.width <= s.width
    requires column < s.width && k < s.bytes && !Inside(c, column, row) && c.y <= r < c.y + c.height
    ensures !InRow(s, c, r, At(s, row, column) + k)
  {
    PixelEnds(s, row, column);
    ColumnsInOrder(s, row, 0, column);
    ColumnsInOrder(s, r, 0, c.x);
    if row < r {
      RowsApart(s, row, r, column + 1);
    } else if r < row {
      RowsApart(s, r, row, c.x + c.width);
    } else if column < c.x {
      ColumnsInOrder(s, row, column + 1, c.x);
    } else {
      ColumnsInOrder(s, row, c.x + c.width, column);
    }
    hide At;
  }

  lemma RowsPaint(before: seq<Byte>, after: seq<Byte>, s: Surface, r: Rect, colour: nat)
    requires 0 < s.bytes <= 4 && Apart(s)
    requires var c := Clipped(s, r);
             c.width > 0 && c.height > 0 && InMemory(s, c, |before|) && OnlyRows(before, after, s, c, c.height)
               && RowsFilled(after, s, c, c.height, colour)
    ensures Painted(before, after, s, r, colour)
  {
    var c := Clipped(s, r);
    assert |after| == |before|;
    hide At, PixelIs, PixelSame, Clipped, OnlyRows, RowsFilled, Apart, InMemory;
    forall row, column | 0 <= row < s.height && 0 <= column < s.width
      ensures if Inside(r, column, row) then PixelIs(after, s, row, column, colour)
              else PixelSame(before, after, s, row, column) {
      if Inside(c, column, row) {
        PixelPainted(after, s, c, row, column, colour);
      } else {
        PixelUntouched(before, after, s, c, row, column);
      }
    }
  }

  /** With rows apart no later row covers a pixel. */
  lemma PixelPainted(after: seq<Byte>, s: Surface, c: Rect, row: nat, column: nat, colour: nat)
    requires 0 < s.bytes <= 4 && Apart(s) && Inside(c, column, row)
    requires 0 <= c.x && 0 <= c.y && 0 <= c.width && 0 <= c.height && c.x + c.width <= s.width
    requires InMemory(s, c, |after|) && RowsFilled(after, s, c, c.height, colour)
    ensures PixelIs(after, s, row, column, colour)
  {
    assert RowInMemory(s, c, row, |after|);
    ColumnsInOrder(s, row, column + 1, c.x + c.width);
    PixelEnds(s, row, column);
    hide At, ColourByte, Apart, InMemory;
    forall k | 0 <= k < s.bytes ensures after[At(s, row, column) + k] == ColourByte(colour, k) {
      PixelUncovered(s, c, row, column, At(s, row, column) + k);
      assert ByteFilled(after, s, c, c.height, row, column, At(s, row, column) + k, colour);
    }
  }

  lemma PixelUncovered(s: Surface, c: Rect, row: nat, column: nat, a: nat)
    requires Apart(s) && Inside(c, column, row) && At(s, row, column) <= a < At(s, row, column) + s.bytes
    requires 0 <= c.x && 0 <= c.y && 0 <= c.width && 0 <= c.height && c.x + c.width <= s.width
    ensures NoLaterRow(s, c, c.height, row, a)
  {
    PixelEnds(s, row, column);
    forall later | row < later < c.y + c.height ensures !InRow(s, c, later, a) {
      RowsApart(s, row, later, column + 1);
      ColumnsInOrder(s, later, 0, c.x);
    }
  }

  lemma PixelUntouched(before: seq<Byte>, after: seq<Byte>, s: Surface, c: Rect, row: nat, column: nat)
    requires Apart(s) && 0 <= c.x && 0 <= c.y && 0 <= c.width && c.x + c.width <= s.width
    requires 0 <= c.height
    requires OnlyRows(before, after, s, c, c.height) && column < s.width && !Inside(c, column, row)
    ensures PixelSame(before, after, s, row, column)
  {
    assert |before| == |after|;
    hide At, Apart, OnlyRows;
    forall a | At(s, row, column) <= a < At(s, row, column) + s.bytes && a < |before| ensures after[a] == before[a] {
      ByteUntouched(before, after, s, c, row, column, a);
    }
  }

  lemma ByteUntouched(before: seq<Byte>, after: seq<Byte>, s: Surface, c: Rect, row: nat, column: nat, a: nat)
    requires Apart(s) && 0 <= c.x && 0 <= c.y && 0 <= c.width && c.x + c.width <= s.width
    requires 0 <= c.height
    requires OnlyRows(before, after, s, c, c.height) && column < s.width && !Inside(c, column, row)
    requires At(s, row, column) <= a < At(s, row, column) + s.bytes && a < |before|
    ensures after[a] == before[a]
  {
    forall r | c.y <= r < c.y + c.height ensures !InRow(s, c, r, a) {
      PixelOutside(s, c, row, column, a - At(s, row, column), r);
    }
    hide At, InRow;
  }

  /** When a call fills anything: the surface has pixels of one to four bytes, and the rectangle asked for,
      or the whole surface without one, holds some of them. */
  lemma FillsWhen(s: Surface, rect: Option<Rect>)
    ensures Fills(s, rect) <==>
            && s.pixels != 0 && s.hasFormat && 1 <= s.bytes <= 4
            && exists column, row :: 0 <= column < s.width && 0 <= row < s.height &&
                 Inside(Asked(s, rect), column, row)
    ensures rect.Some? ==> Asked(s, rect) == rect.value
    ensures rect == None ==> forall column, row ::
              0 <= column < s.width && 0 <= row < s.height ==> Inside(Asked(s, rect), column, row)
  {
    var r := Asked(s, rect);
    var c := Clipped(s, r);
    if c.width > 0 && c.height > 0 {
      assert Inside(c, c.x, c.y);
      assert Inside(r, c.x, c.y);
    }
    if column, row :| 0 <= column < s.width && 0 <= row < s.height && Inside(r, column, row) {
      assert Inside(c, column, row);
    }
  }

  /** A painted pixel: its bytes in memory, the lowest first, are the colour's. */
  lemma PaintedPixel(before: seq<Byte>, after: seq<Byte>, s: Surface, r: Rect, colour: nat, row: nat, column: nat)
    requires 0 < s.bytes <= 4 && Painted(before, after, s, r, colour) && row < s.height && column < s.width
    requires Inside(r, column, row) && colour < 0x1_0000_0000
    ensures var a := s.pixels + row * s.pitch + column * s.bytes;
            && a + s.bytes <= |after|
            && colour % 0x100 == after[a] as nat
            && (s.bytes > 1 ==> colour / 0x100 % 0x100 == after[a + 1] as nat)
            && (s.bytes > 2 ==> colour / 0x1_0000 % 0x100 == after[a + 2] as nat)
            && (s.bytes > 3 ==>
              colour == after[a] as nat + 0x100 * (after[a + 1] as nat) + 0x1_0000 * (after[a + 2] as nat) +
                0x100_0000 * (after[a + 3] as nat))
  {
    assert PixelIs(after, s, row, column, colour);
    var a := At(s, row, column);
    assert after[a + 0] == ColourByte(colour, 0);
    if s.bytes > 1 { assert after[a + 1] == ColourByte(colour, 1); }
    if s.bytes > 2 { assert after[a + 2] == ColourByte(colour, 2); }
    if s.bytes > 3 { assert after[a + 3] == ColourByte(colour, 3); }
  }

  /** Every other pixel of the surface keeps its bytes. */
  lemma OtherPixel(before: seq<Byte>, after: seq<Byte>, s: Surface, r: Rect, colour: nat, row: nat, column: nat, k: nat)
    requires 0 < s.bytes <= 4 && Painted(before, after, s, r, colour) && row < s.height && column < s.width
    requires !Inside(r, column, row) && k < s.bytes
    ensures var a := s.pixels + row * s.pitch + column * s.bytes + k;
            |after| == |before| && (a < |before| ==> after[a] == before[a])
  {
    assert PixelSame(before, after, s, row, column);
  }

  /** cz_fill_rect: no byte outside the rectangle's rows changes, and each byte in them is what the
      last row over it wrote; so where rows lie apart, exactly the pixels of the rectangle that
      are on the surface take the colour. Only what is filled need be in memory. */
  method Fill(memory: array<Byte>, s: Surface, rect: Option<Rect>, colour: nat) returns (result: int)
    requires Fills(s, rect) ==> InMemory(s, Clipped(s, Asked(s, rect)), memory.Length)
    modifies memory
    ensures result == if s.pixels != 0 && s.hasFormat && (s.bytes == 0 || s.bytes > 4) then -1 else 0
    ensures !Fills(s, rect) ==> memory[..] == old(memory[..])
    ensures Fills(s, rect) ==>
              var c := Clipped(s, Asked(s, rect));
              && OnlyRows(old(memory[..]), memory[..], s, c, c.height) && RowsFilled(memory[..], s, c, c.height, colour)
    ensures Fills(s, rect) && Apart(s) ==> Painted(old(memory[..]), memory[..], s, Asked(s, rect), colour)
  {
    if s.pixels == 0 || !s.hasFormat {
      return 0;
    }
    if s.bytes == 0 || s.bytes > 4 {
      return -1;
    }
    var x, y, width, height := 0, 0, s.width as int, s.height as int;
    if rect.Some? {
      x, y, width, height := rect.value.x, rect.value.y, rect.value.width, rect.value.height;
    }
    if x < 0 { width, x := width + x, 0; }
    if y < 0 { height, y := height + y, 0; }
    if x + width > s.width { width := s.width - x; }
    if y + height > s.height { height := s.height - y; }
    assert Rect(x, y, width, height) == Clipped(s, Asked(s, rect));
    if width <= 0 || height <= 0 {
      return 0;
    }
    hide Clipped, OnlyRows, RowsFilled, Painted, Apart, InMemory;
    FillRows(memory, s, Rect(x, y, width, height), colour);
    if Apart(s) {
      RowsPaint(old(memory[..]), memory[..], s, Asked(s, rect), colour);
    }
    result := 0;
  }
}
