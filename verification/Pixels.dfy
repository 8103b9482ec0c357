/** Packing and unpacking pixels through channel masks, and filling rectangles
    (native/src/chuzzle.inc). */
module Pixels {
  // ---------------------------------------------------------------- words

  const BITS: nat := 32

  /** A 32-bit word, lowest bit first. */
  type Word = w: seq<bool> | |w| == 32 witness seq(32, _ => false)

  function Zero(): (r: Word)
    ensures forall i :: 0 <= i < BITS ==> !r[i]
  {
    seq(BITS, _ => false)
  }

  function And(a: Word, b: Word): (r: Word)
  {
    seq(BITS, i requires 0 <= i < BITS => a[i] && b[i])
  }

  function Or(a: Word, b: Word): (r: Word)
  {
    seq(BITS, i requires 0 <= i < BITS => a[i] || b[i])
  }

  /** `a >> n`. */
  function Down(a: Word, n: nat): (r: Word)
  {
    seq(BITS, i requires 0 <= i < BITS => i + n < BITS && a[i + n])
  }

  /** `a << n`. */
  function Up(a: Word, n: nat): (r: Word)
  {
    seq(BITS, i requires 0 <= i < BITS => i >= n && a[i - n])
  }

  /** The low byte. */
  function Low(a: Word): (r: Word)
  {
    seq(BITS, i requires 0 <= i < BITS => i < 8 && a[i])
  }

  predicate IsByte(a: Word) {
    forall i :: 8 <= i < BITS ==> !a[i]
  }

  function Power(n: nat): (p: nat)
    ensures p > 0
  {
    if n == 0 then 1 else 2 * Power(n - 1)
  }

  /** The number in the lowest `n` bits. */
  function Value(a: Word, n: nat): (v: nat)
    requires n <= BITS
    ensures v < Power(n)
  {
    if n == 0 then 0 else Value(a, n - 1) + if a[n - 1] then Power(n - 1) else 0
  }

  /** Words that agree from bit `k` on differ by less than the weight of that bit. */
  lemma {:induction false} CloseValues(a: Word, b: Word, k: nat, n: nat)
    requires k <= n <= BITS && forall i :: k <= i < n ==> a[i] == b[i]
    ensures Value(a, n) < Value(b, n) + Power(k) && Value(b, n) < Value(a, n) + Power(k)
  {
    if n > k {
      CloseValues(a, b, k, n - 1);
    }
  }

  // ---------------------------------------------------------------- masks

  /** The mask's lowest run of set bits. */
  predicate StartsWith(mask: Word, shift: nat, bits: nat)
  {
    && bits >= 1 && shift + bits <= BITS
    && (forall i :: 0 <= i < shift ==> !mask[i])
    && (forall i :: shift <= i < shift + bits ==> mask[i])
    && (shift + bits < BITS ==> !mask[shift + bits])
  }

  predicate NoBits(mask: Word) {
    forall i :: 0 <= i < BITS ==> !mask[i]
  }

  /** A channel as a surface format records it. */
  datatype Channel = Channel(mask: Word, loss: nat, shift: nat)

  /** What cz_mask_fields makes of a mask that SDL allows: loss and shift of its lowest run. */
  predicate Described(c: Channel)
  {
    if NoBits(c.mask) then c.loss == 8 && c.shift == 0
    else c.loss < 8 && StartsWith(c.mask, c.shift, 8 - c.loss)
  }

  /** The mask is that one run. */
  predicate Contiguous(c: Channel)
  {
    forall i :: 0 <= i < BITS && i >= c.shift + 8 - c.loss ==> !c.mask[i]
  }

  method MaskFields(mask: Word) returns (loss: nat, shift: nat)
    ensures NoBits(mask) ==> loss == 8 && shift == 0
    ensures !NoBits(mask) ==> exists bits: nat :: StartsWith(mask, shift, bits) && loss == (8 - bits) % 0x100
  {
    var bits := 0;
    shift := 0;
    if mask != Zero() {
      while !Down(mask, shift)[0]
        invariant shift < BITS && forall i :: 0 <= i < shift ==> !mask[i]
        decreases BITS - shift
      {
        if shift == BITS - 1 {
          assert forall i :: 0 <= i < BITS ==> mask[i] == Zero()[i];
        }
        shift := shift + 1;
      }
      var m := Down(mask, shift);
      while m[0]
        invariant shift + bits <= BITS && forall i :: shift <= i < shift + bits ==> mask[i]
        invariant forall i :: 0 <= i < BITS ==> m[i] == (i + shift + bits < BITS && mask[i + shift + bits])
        invariant bits == 0 ==> m[0]
        decreases BITS - bits
      {
        m := Down(m, 1);
        bits := bits + 1;
      }
      assert StartsWith(mask, shift, bits);
    }
    loss := (8 - bits) % 0x100;
  }

  /** The fields of a mask are determined by it. */
  lemma FieldsUnique(mask: Word, shift: nat, bits: nat, shift': nat, bits': nat)
    requires StartsWith(mask, shift, bits) && StartsWith(mask, shift', bits')
    ensures shift == shift' && bits == bits'
  {
    assert mask[shift] && mask[shift'];
    assert shift == shift';
  }

  // ---------------------------------------------------------------- one channel

  function Widened(c: Channel, pixel: Word): (value: Word)
    requires c.loss < 8
  {
    var value := Up(Down(And(pixel, c.mask), c.shift), c.loss);
    Low(if c.loss != 0 then Or(value, Down(value, 8 - c.loss)) else value)
  }

  function Packed(c: Channel, value: Word): (pixel: Word)
  {
    And(Up(Down(value, c.loss), c.shift), c.mask)
  }

  lemma WidenedBits(c: Channel, pixel: Word, i: nat)
    requires Described(c) && !NoBits(c.mask) && Contiguous(c) && c.loss <= i < 8
    ensures Widened(c, pixel)[i] == pixel[i - c.loss + c.shift]
  {
    var masked := And(pixel, c.mask);
    var value := Up(Down(masked, c.shift), c.loss);
    assert c.mask[i - c.loss + c.shift];
    assert value[i] == masked[i - c.loss + c.shift] == pixel[i - c.loss + c.shift];
    NothingAbove(c, pixel, i + 8 - c.loss);
  }

  /** The bits below a widened channel repeat its highest ones, as far as it has that many. */
  lemma WidenedLow(c: Channel, pixel: Word, i: nat)
    requires Described(c) && !NoBits(c.mask) && Contiguous(c) && i < c.loss
    ensures Widened(c, pixel)[i] <==> i + 8 - c.loss >= c.loss && pixel[i + 8 - c.loss - c.loss + c.shift]
  {
    var masked, k := And(pixel, c.mask), i + 8 - c.loss;
    var value := Up(Down(masked, c.shift), c.loss);
    assert !value[i] && Down(value, 8 - c.loss)[i] == value[k];
    if k >= c.loss {
      assert c.mask[k - c.loss + c.shift];
      assert value[k] == masked[k - c.loss + c.shift];
    }
  }

  /** A packed channel has the value's high bits where its mask is, and nothing elsewhere. */
  lemma PackedBits(c: Channel, value: Word, k: nat)
    requires Described(c) && !NoBits(c.mask) && Contiguous(c) && k < BITS
    ensures Packed(c, value)[k] <==> c.shift <= k < c.shift + 8 - c.loss && value[k - c.shift + c.loss]
  {
  }

  /** Full intensity stays full intensity, for channels of four bits or more. */
  lemma FullScale(c: Channel, pixel: Word)
    requires Described(c) && !NoBits(c.mask) && Contiguous(c) && c.loss <= 4
    requires forall k :: 0 <= k < BITS && c.mask[k] ==> pixel[k]
    ensures forall i :: 0 <= i < BITS ==> (Widened(c, pixel)[i] <==> i < 8)
  {
    WidenedByte(c, pixel);
    forall i | 0 <= i < 8 ensures Widened(c, pixel)[i] {
      if i < c.loss {
        WidenedLow(c, pixel, i);
        assert c.mask[i + 8 - c.loss - c.loss + c.shift];
      } else {
        WidenedBits(c, pixel, i);
        assert c.mask[i - c.loss + c.shift];
      }
    }
  }

  /** What the high bits are widened with lies below the channel's own bits. */
  lemma NothingAbove(c: Channel, pixel: Word, k: nat)
    requires Described(c) && !NoBits(c.mask) && Contiguous(c) && 8 <= k < BITS
    ensures !Up(Down(And(pixel, c.mask), c.shift), c.loss)[k]
  {
    var i := k - c.loss + c.shift;
    assert i < BITS ==> !c.mask[i];
  }

  /** Unpacking and packing a channel gives back the pixel under the mask, for every pixel,
      exactly when the mask is a single run. */
  lemma ChannelRoundTrip(c: Channel)
    requires Described(c) && !NoBits(c.mask)
    ensures (forall p: Word :: Packed(c, Widened(c, p)) == And(p, c.mask)) <==> Contiguous(c)
  {
    if Contiguous(c) {
      forall p: Word ensures Packed(c, Widened(c, p)) == And(p, c.mask) {
        forall i | 0 <= i < BITS ensures Packed(c, Widened(c, p))[i] == And(p, c.mask)[i] {
          if c.mask[i] {
            WidenedBits(c, p, i - c.shift + c.loss);
          }
        }
      }
    } else {
      var i :| 0 <= i < BITS && i >= c.shift + 8 - c.loss && c.mask[i];
      assert !Packed(c, Widened(c, c.mask))[i];
      assert And(c.mask, c.mask)[i];
    }
  }

  /** Packing and unpacking keeps a channel's high bits, whatever the other channels hold, so it
      moves the channel by less than 2 to the power of its loss. */
  lemma ChannelKept(c: Channel, value: Word, others: Word)
    requires Described(c) && !NoBits(c.mask) && Contiguous(c) && IsByte(value)
    requires forall i :: 0 <= i < BITS ==> !(others[i] && c.mask[i])
    ensures var back := Widened(c, Or(Packed(c, value), others));
            && IsByte(back) && (forall i :: c.loss <= i < BITS ==> back[i] == value[i])
            && Value(back, 8) < Value(value, 8) + Power(c.loss) && Value(value, 8) < Value(back, 8) + Power(c.loss)
  {
    var pixel := Or(Packed(c, value), others);
    var back := Widened(c, pixel);
    WidenedByte(c, pixel);
    hide And, Or, Up, Down, Low, Widened, Packed, Described, Contiguous, NoBits;
    forall i | c.loss <= i < BITS ensures back[i] == value[i] {
      if i < 8 {
        KeptBit(c, value, others, i);
      }
    }
    CloseValues(back, value, c.loss, 8);
  }

  lemma WidenedByte(c: Channel, pixel: Word)
    requires c.loss < 8
    ensures IsByte(Widened(c, pixel))
  {
    hide And, Or, Up, Down;
  }

  lemma KeptBit(c: Channel, value: Word, others: Word, i: nat)
    requires Described(c) && !NoBits(c.mask) && Contiguous(c) && c.loss <= i < 8
    requires forall k :: 0 <= k < BITS ==> !(others[k] && c.mask[k])
    ensures Widened(c, Or(Packed(c, value), others))[i] == value[i]
  {
    WidenedBits(c, Or(Packed(c, value), others), i);
    assert c.mask[i - c.loss + c.shift];
    hide Widened;
  }

  // ---------------------------------------------------------------- whole pixels

  /** Red, green, blue and alpha; a format may lack any of them. */
  predicate FormatDescribed(f: seq<Channel>)
  {
    |f| == 4 && forall i :: 0 <= i < 4 ==> Described(f[i])
  }

  predicate FormatOk(f: seq<Channel>)
  {
    FormatDescribed(f) && forall i :: 0 <= i < 4 ==> Contiguous(f[i])
  }

  function Full(): (w: Word)
    ensures IsByte(w)
  {
    seq(BITS, i => i < 8)
  }

  function Component(f: seq<Channel>, pixel: Word, i: nat): (value: Word)
    requires FormatDescribed(f) && i < 4
    ensures IsByte(value)
  {
    if NoBits(f[i].mask) then (if i == 3 then Full() else Zero()) else Widened(f[i], pixel)
  }

  function Masks(f: seq<Channel>, n: nat): (m: Word)
    requires |f| == 4 && n <= 4
    ensures forall i :: 0 <= i < BITS ==> m[i] == exists j :: 0 <= j < n && f[j].mask[i]
  {
    if n == 0 then Zero() else Or(Masks(f, n - 1), f[n - 1].mask)
  }

  function PackedUpTo(f: seq<Channel>, values: seq<Word>, n: nat): (pixel: Word)
    requires |f| == |values| == 4 && n <= 4
  {
    if n == 0 then Zero()
    else Or(PackedUpTo(f, values, n - 1), if NoBits(f[n - 1].mask) then Zero() else Packed(f[n - 1], values[n - 1]))
  }

  /** cz_unpack_pixel. */
  method UnpackPixel(f: seq<Channel>, pixel: Word) returns (values: seq<Word>)
    requires FormatDescribed(f)
    ensures |values| == 4 && forall i :: 0 <= i < 4 ==> values[i] == Component(f, pixel, i)
    ensures forall i, k :: 0 <= i < 4 && 0 <= k < BITS && NoBits(f[i].mask) ==> (values[i][k] <==> i == 3 && k < 8)
  {
    hide Contiguous, Widened, Described, NoBits;
    values := [];
    var i := 0;
    while i < 4
      invariant i == |values| <= 4 && forall j :: 0 <= j < i ==> values[j] == Component(f, pixel, j)
    {
      ZeroIs(f[i].mask);
      if f[i].mask == Zero() {
        values := values + [if i == 3 then Full() else Zero()];
      } else {
        var value := UnpackChannel(f[i], pixel);
        values := values + [value];
      }
      i := i + 1;
    }
  }

  method UnpackChannel(c: Channel, pixel: Word) returns (value: Word)
    requires Described(c) && !NoBits(c.mask)
    ensures c.loss < 8 && value == Widened(c, pixel)
  {
    hide And, Or, Up, Down, Low, StartsWith, NoBits;
    value := Up(Down(And(pixel, c.mask), c.shift), c.loss);
    if c.loss != 0 && c.loss < 8 {
      value := Or(value, Down(value, 8 - c.loss));
    }
    value := Low(value);
  }

  lemma ZeroIs(mask: Word)
    ensures mask == Zero() <==> NoBits(mask)
  {
    if NoBits(mask) {
      assert mask == Zero();
    }
  }

  /** cz_map_rgba. */
  method MapRgba(f: seq<Channel>, values: seq<Word>) returns (pixel: Word)
    requires FormatDescribed(f) && |values| == 4
    ensures pixel == PackedUpTo(f, values, 4)
  {
    pixel := Zero();
    var i := 0;
    while i < 4
      invariant i <= 4 && pixel == PackedUpTo(f, values, i)
    {
      ZeroIs(f[i].mask);
      if f[i].mask != Zero() {
        pixel := Or(pixel, And(Up(Down(values[i], f[i].loss), f[i].shift), f[i].mask));
      } else {
        assert forall j :: 0 <= j < BITS ==> Or(pixel, Zero())[j] == pixel[j];
        assert Or(pixel, Zero()) == pixel;
      }
      i := i + 1;
    }
  }

  function Components(f: seq<Channel>, pixel: Word): (values: seq<Word>)
    requires FormatDescribed(f)
    ensures |values| == 4 && forall i :: 0 <= i < 4 ==> values[i] == Component(f, pixel, i)
  {
    seq(4, i requires 0 <= i < 4 => Component(f, pixel, i))
  }

  /** Every pixel comes back, restricted to the masks, whether or not they overlap. */
  lemma {:induction false} PixelRoundTrip(f: seq<Channel>, pixel: Word, n: nat)
    requires FormatOk(f) && n <= 4
    ensures PackedUpTo(f, Components(f, pixel), n) == And(pixel, Masks(f, n))
  {
    hide And, Or, Packed, Widened, NoBits, Described, Contiguous;
    if n != 0 {
      PixelRoundTrip(f, pixel, n - 1);
      MaskedChannel(f[n - 1], pixel);
      MaskedBoth(pixel, Masks(f, n - 1), f[n - 1].mask);
    } else {
      MaskedAway(pixel);
    }
  }

  lemma MaskedChannel(c: Channel, pixel: Word)
    requires Described(c) && Contiguous(c)
    ensures NoBits(c.mask) ==> Zero() == And(pixel, c.mask)
    ensures !NoBits(c.mask) ==> c.loss < 8 && Packed(c, Widened(c, pixel)) == And(pixel, c.mask)
  {
    if NoBits(c.mask) {
      assert forall i :: 0 <= i < BITS ==> Zero()[i] == And(pixel, c.mask)[i];
    } else {
      ChannelRoundTrip(c);
    }
    hide Packed, Widened;
  }

  lemma MaskedAway(pixel: Word)
    ensures And(pixel, Zero()) == Zero()
  {
    assert forall i :: 0 <= i < BITS ==> Zero()[i] == And(pixel, Zero())[i];
  }

  lemma MaskedBoth(p: Word, m: Word, n: Word)
    ensures Or(And(p, m), And(p, n)) == And(p, Or(m, n))
  {
    assert forall i :: 0 <= i < BITS ==> Or(And(p, m), And(p, n))[i] == And(p, Or(m, n))[i];
  }

  predicate Disjoint(f: seq<Channel>)
    requires |f| == 4
  {
    forall i, j, k :: 0 <= i < j < 4 && 0 <= k < BITS ==> !(f[i].mask[k] && f[j].mask[k])
  }

  lemma {:induction false} PackedInMasks(f: seq<Channel>, values: seq<Word>, n: nat, i: nat)
    requires |f| == |values| == 4 && Disjoint(f) && n <= 4 && i < 4
    ensures forall k :: 0 <= k < BITS && f[i].mask[k] ==>
              PackedUpTo(f, values, n)[k] == (i < n && !NoBits(f[i].mask) && Packed(f[i], values[i])[k])
  {
    hide Packed, NoBits;
    if n != 0 {
      PackedInMasks(f, values, n - 1, i);
      PackedMasked(f[n - 1], values[n - 1]);
    }
  }

  /** Every channel a format has comes back with its high bits. */
  lemma ColourKept(f: seq<Channel>, values: seq<Word>, i: nat)
    requires FormatOk(f) && Disjoint(f) && |values| == 4 && i < 4 && !NoBits(f[i].mask) && IsByte(values[i])
    ensures var back := Component(f, PackedUpTo(f, values, 4), i);
            && (forall k :: f[i].loss <= k < BITS ==> back[k] == values[i][k])
            && Value(back, 8) < Value(values[i], 8) + Power(f[i].loss)
              && Value(values[i], 8) < Value(back, 8) + Power(f[i].loss)
  {
    var c, pixel := f[i], PackedUpTo(f, values, 4);
    PackedInMasks(f, values, 4, i);
    hide PackedUpTo, Widened, Packed, Described, Contiguous, Disjoint, And, Or;
    var others := Outside(pixel, c.mask);
    PackedMasked(c, values[i]);
    SplitAt(pixel, c.mask, Packed(c, values[i]));
    ChannelKept(c, values[i], others);
  }

  function Outside(pixel: Word, mask: Word): Word {
    seq(BITS, k requires 0 <= k < BITS => pixel[k] && !mask[k])
  }

  lemma SplitAt(pixel: Word, mask: Word, inside: Word)
    requires forall k :: 0 <= k < BITS ==> inside[k] == (mask[k] && pixel[k])
    ensures Or(inside, Outside(pixel, mask)) == pixel
    ensures forall k :: 0 <= k < BITS ==> !(Outside(pixel, mask)[k] && mask[k])
  {
    assert forall k :: 0 <= k < BITS ==> Or(inside, Outside(pixel, mask))[k] == pixel[k];
  }

  lemma PackedMasked(c: Channel, value: Word)
    ensures forall k :: 0 <= k < BITS && !c.mask[k] ==> !Packed(c, value)[k]
  {
  }
}
