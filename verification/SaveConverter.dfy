/** Conversion of Plants vs. Zombies profiles between the Windows and Mac record layouts
    (native/src/pvz_save.c). */
module SaveConverter {
  import opened Bytes
  import opened Options

  const HEADER: nat := 820
  const MINIMUM: nat := 888
  const VERSION: nat := 12
  const COUNT_AT: nat := 816
  const WINDOWS: nat := 88
  const MAC: nat := 60

  function U32(s: seq<Byte>, i: nat): (v: nat)
    requires i + 4 <= |s|
    ensures v == 0 <==> s[i] == 0 && s[i + 1] == 0 && s[i + 2] == 0 && s[i + 3] == 0
  {
    s[i] as nat + 0x100 * s[i + 1] as nat + 0x1_0000 * s[i + 2] as nat + 0x100_0000 * s[i + 3] as nat
  }

  /** Whether a file of `count` plants fits the layout with the given record size: the byte
      43 past the records says how many 72-byte entries end the file. */
  predicate Layout(data: seq<Byte>, count: nat, stride: nat)
    requires |data| >= HEADER && stride > 0
  {
    count <= (|data| - HEADER) / stride &&
    var tail := HEADER + count * stride;
    TailFits(data, tail)
  }

  predicate TailFits(data: seq<Byte>, tail: nat)
  {
    tail + 68 <= |data| && |data| - tail == 68 + data[tail + 43] as nat * 72
  }

  lemma LayoutMeans(data: seq<Byte>, count: nat, stride: nat)
    requires |data| >= HEADER && (stride == WINDOWS || stride == MAC)
    ensures Layout(data, count, stride) <==> TailFits(data, HEADER + count * stride)
  {
  }

  // ---------------------------------------------------------------- one record

  /** Where byte `k` of a Mac record is in a Windows record. */
  function WindowsIndex(k: nat): (i: nat)
    requires k < MAC
    ensures i < WINDOWS && Kept(i) && MacIndex(i) == k
  {
    if k < 20 then k else if k < 24 then k + 4 else if k < 44 then k + 8 else if k < 48 then k + 12 else k + 16
  }

  /** The bytes of a Windows record that a Mac record has too. */
  predicate Kept(i: nat) {
    i < 20 || 24 <= i < 28 || 32 <= i < 52 || 56 <= i < 60 || 64 <= i < 76
  }

  function MacIndex(i: nat): (k: nat)
    requires Kept(i)
    ensures k < MAC
  {
    if i < 20 then i else if i < 28 then i - 4 else if i < 52 then i - 8 else if i < 60 then i - 12 else i - 16
  }

  function ToMac(r: seq<Byte>): (m: seq<Byte>)
    requires |r| == WINDOWS
    ensures |m| == MAC
  {
    seq(MAC, k requires 0 <= k < MAC => r[WindowsIndex(k)])
  }

  function ToWindows(r: seq<Byte>): (w: seq<Byte>)
    requires |r| == MAC
    ensures |w| == WINDOWS
  {
    seq(WINDOWS, i requires 0 <= i < WINDOWS => if Kept(i) then r[MacIndex(i)] else 0)
  }

  const OMITTED: seq<nat> := [20, 28, 52, 60, 76, 80, 84]

  /** The Windows-only fields of a record are all zero. */
  predicate Lossless(r: seq<Byte>)
    requires |r| == WINDOWS
  {
    forall j :: 0 <= j < |OMITTED| ==> U32(r, OMITTED[j]) == 0
  }

  /** The omitted words are exactly the bytes a Mac record lacks. */
  lemma LosslessBytes(r: seq<Byte>)
    requires |r| == WINDOWS
    ensures Lossless(r) <==> forall i :: 0 <= i < WINDOWS && !Kept(i) ==> r[i] == 0
  {
    if Lossless(r) {
      assert OMITTED[0] == 20 && OMITTED[1] == 28 && OMITTED[2] == 52 && OMITTED[3] == 60 && OMITTED[4] == 76
        && OMITTED[5] == 80 && OMITTED[6] == 84;
    }
  }

  /** A record survives the trip to Mac and back exactly when it is lossless. */
  lemma ThereAndBack(r: seq<Byte>)
    requires |r| == WINDOWS
    ensures ToWindows(ToMac(r)) == r <==> Lossless(r)
  {
    LosslessBytes(r);
    var w := ToWindows(ToMac(r));
    forall i | 0 <= i < WINDOWS ensures w[i] == if Kept(i) then r[i] else 0 {
      if Kept(i) {
        assert WindowsIndex(MacIndex(i)) == i;
      }
    }
  }

  lemma BackAndThere(r: seq<Byte>)
    requires |r| == MAC
    ensures ToMac(ToWindows(r)) == r && Lossless(ToWindows(r))
  {
    LosslessBytes(ToWindows(r));
  }

  const WORD_OF_ZEROS: seq<Byte> := [0, 0, 0, 0]

  /** A Mac record is the Windows record without its seven Windows-only words. */
  predicate Narrowed(r: seq<Byte>, m: seq<Byte>)
  {
    |r| == 88 && m == r[..20] + r[24..28] + r[32..52] + r[56..60] + r[64..76]
  }

  /** A Windows record is the Mac record with seven zero words put in. */
  predicate Padded(m: seq<Byte>, r: seq<Byte>)
  {
    |m| == 60 &&
    r == m[..20] + WORD_OF_ZEROS + m[20..24] + WORD_OF_ZEROS + m[24..44] + WORD_OF_ZEROS + m[44..48] + WORD_OF_ZEROS +
      m[48..60] + WORD_OF_ZEROS + WORD_OF_ZEROS + WORD_OF_ZEROS
  }

  lemma ToMacCuts(r: seq<Byte>)
    requires |r| == WINDOWS
    ensures Narrowed(r, ToMac(r))
  {
  }

  lemma ToWindowsPads(m: seq<Byte>)
    requires |m| == MAC
    ensures Padded(m, ToWindows(m))
  {
  }

  // ---------------------------------------------------------------- a run of records

  /** Record `i` of a run of records of the given size. */
  function Record(body: seq<Byte>, stride: nat, i: nat): (r: seq<Byte>)
    requires (i + 1) * stride <= |body|
    ensures |r| == stride
  {
    assert (i + 1) * stride == i * stride + stride;
    body[i * stride..(i + 1) * stride]
  }

  function Resized(r: seq<Byte>): (t: seq<Byte>)
    requires |r| == WINDOWS || |r| == MAC
    ensures |t| == WINDOWS + MAC - |r|
  {
    if |r| == WINDOWS then ToMac(r) else ToWindows(r)
  }

  /** The first `n` records, each in the other layout. */
  function ResizedRecords(body: seq<Byte>, stride: nat, n: nat): (out: seq<Byte>)
    requires (stride == WINDOWS || stride == MAC) && n * stride <= |body|
    ensures |out| == n * (WINDOWS + MAC - stride)
  {
    if n == 0 then [] else ResizedRecords(body, stride, n - 1) + Resized(Record(body, stride, n - 1))
  }

  ghost predicate AllLossless(body: seq<Byte>, n: nat)
    requires n * WINDOWS <= |body|
  {
    forall i :: 0 <= i < n ==> (i + 1) * WINDOWS <= |body| && Lossless(Record(body, WINDOWS, i))
  }

  /** Resizing looks only at the records it resizes. */
  lemma {:induction false} RecordsPrefix(body: seq<Byte>, more: seq<Byte>, stride: nat, n: nat)
    requires (stride == WINDOWS || stride == MAC) && n * stride <= |body|
    ensures ResizedRecords(body + more, stride, n) == ResizedRecords(body, stride, n)
  {
    hide Resized, Record;
    if n != 0 {
      StrideStep(n - 1, stride, n);
      RecordsPrefix(body, more, stride, n - 1);
      EarlierRecord(body, more, stride, n - 1);
    }
  }

  /** Widened Mac records use none of the Windows-only fields. */
  lemma {:induction false} WidenedIsLossless(body: seq<Byte>, n: nat)
    requires n * MAC <= |body|
    ensures AllLossless(ResizedRecords(body, MAC, n), n)
  {
    hide Lossless, Resized, Record;
    if n != 0 {
      WidenedIsLossless(body, n - 1);
      ResizedLossless(Record(body, MAC, n - 1));
      OneMoreLossless(ResizedRecords(body, MAC, n - 1), Resized(Record(body, MAC, n - 1)), n);
    }
  }

  lemma ResizedLossless(r: seq<Byte>)
    requires |r| == MAC
    ensures Lossless(Resized(r))
  {
    BackAndThere(r);
  }

  lemma OneMoreLossless(rest: seq<Byte>, last: seq<Byte>, n: nat)
    requires n > 0 && |rest| == (n - 1) * WINDOWS && |last| == WINDOWS
    requires AllLossless(rest, n - 1) && Lossless(last)
    ensures AllLossless(rest + last, n)
  {
    hide Lossless;
    LastRecord(rest, last, WINDOWS, n);
    forall i | 0 <= i < n ensures (i + 1) * WINDOWS <= |rest + last| && Lossless(Record(rest + last, WINDOWS, i)) {
      if i < n - 1 {
        EarlierRecord(rest, last, WINDOWS, i);
      }
    }
  }

  lemma ResizedBack(r: seq<Byte>)
    requires |r| == MAC || (|r| == WINDOWS && Lossless(r))
    ensures Resized(Resized(r)) == r
  {
    if |r| == WINDOWS { ThereAndBack(r); } else { BackAndThere(r); }
  }

  /** Resizing twice gives the records back, unless a Windows record holds something a Mac record cannot. */
  lemma {:induction false} RecordsThereAndBack(body: seq<Byte>, stride: nat, n: nat)
    requires (stride == WINDOWS || stride == MAC) && n * stride <= |body|
    requires stride == WINDOWS ==> AllLossless(body, n)
    ensures ResizedRecords(ResizedRecords(body, stride, n), WINDOWS + MAC - stride, n) == body[..n * stride]
  {
    hide Resized, Lossless;
    var other := WINDOWS + MAC - stride;
    if n != 0 {
      RecordsThereAndBack(body, stride, n - 1);
      var rest, last := ResizedRecords(body, stride, n - 1), Resized(Record(body, stride, n - 1));
      RecordsPrefix(rest, last, other, n - 1);
      LastRecord(rest, last, other, n);
      ResizedBack(Record(body, stride, n - 1));
      assert body[..n * stride] == body[..(n - 1) * stride] + Record(body, stride, n - 1);
    }
  }

  lemma EarlierRecord(rest: seq<Byte>, last: seq<Byte>, stride: nat, i: nat)
    requires (i + 1) * stride <= |rest|
    ensures Record(rest + last, stride, i) == Record(rest, stride, i)
  {
  }

  lemma LastRecord(rest: seq<Byte>, last: seq<Byte>, stride: nat, n: nat)
    requires n > 0 && |rest| == (n - 1) * stride && |last| == stride
    ensures |rest + last| == n * stride && Record(rest + last, stride, n - 1) == last
  {
    assert (n - 1 + 1) * stride == (n - 1) * stride + stride;
  }

  // ---------------------------------------------------------------- a whole file

  function Count(data: seq<Byte>): nat
    requires |data| >= HEADER
  {
    U32(data, COUNT_AT)
  }

  /** The record size a file is read with, or nothing if it is neither or both. */
  function SourceStride(data: seq<Byte>): (stride: Option<nat>)
    ensures stride.Some? ==> stride.value == WINDOWS || stride.value == MAC
  {
    if |data| < MINIMUM || U32(data, 0) != VERSION then None
    else
      var win, mac := Layout(data, Count(data), WINDOWS), Layout(data, Count(data), MAC);
      if (!win && !mac) || (Count(data) != 0 && win && mac) then None
      else Some(if win then WINDOWS else MAC)
  }

  lemma SourceFits(data: seq<Byte>)
    requires SourceStride(data).Some?
    ensures |data| >= MINIMUM && U32(data, 0) == VERSION
    ensures TailFits(data, HEADER + Count(data) * SourceStride(data).value)
  {
  }

  function Body(data: seq<Byte>, stride: nat): (body: seq<Byte>)
    requires HEADER <= |data| && HEADER + Count(data) * stride <= |data|
    ensures |body| == Count(data) * stride
  {
    data[HEADER..HEADER + Count(data) * stride]
  }

  ghost predicate Convertible(data: seq<Byte>, toMac: bool)
  {
    var stride := SourceStride(data);
    stride.Some? &&
    (SourceFits(data); stride.value == WINDOWS && toMac ==> AllLossless(Body(data, WINDOWS), Count(data)))
  }

  /** The conversion: nothing for a file it does not understand or cannot represent. */
  ghost function Converted(data: seq<Byte>, toMac: bool): Option<seq<Byte>>
  {
    if !Convertible(data, toMac) then None
    else
      SourceFits(data);
      var stride, target := SourceStride(data).value, if toMac then MAC else WINDOWS;
      if stride == target then Some(data)
      else Some(data[..HEADER] + ResizedRecords(Body(data, stride), stride, Count(data)) +
        data[HEADER + Count(data) * stride..])
  }

  /** What a file with the same header and tail and other records looks like to the converter. */
  ghost predicate Holds(out: seq<Byte>, count: nat, end: nat, records: seq<Byte>, tail: seq<Byte>)
  {
    && |out| >= MINIMUM && U32(out, 0) == VERSION && Count(out) == count
    && TailFits(out, end)
    && HEADER <= end && out[HEADER..end] == records && out[end..] == tail
  }

  lemma SameHeader(data: seq<Byte>, out: seq<Byte>)
    requires |data| >= HEADER && |out| >= HEADER && out[..HEADER] == data[..HEADER]
    ensures U32(out, 0) == U32(data, 0) && Count(out) == Count(data)
  {
    assert forall i :: 0 <= i < HEADER ==> out[i] == out[..HEADER][i] == data[i];
  }

  lemma ConvertedHolds(data: seq<Byte>, end: nat, records: seq<Byte>, out: seq<Byte>)
    requires |data| >= MINIMUM && U32(data, 0) == VERSION && HEADER <= end && TailFits(data, end)
    requires out == data[..HEADER] + records + data[end..]
    ensures Holds(out, Count(data), HEADER + |records|, records, data[end..])
  {
    var tail := data[end..];
    assert out[..HEADER] == data[..HEADER] && out[HEADER + |records|..] == tail
      && out[HEADER..HEADER + |records|] == records;
    SameHeader(data, out);
    assert tail[43] == data[end + 43] == out[HEADER + |records| + 43];
  }

  lemma ConvertedFile(data: seq<Byte>, stride: nat, out: seq<Byte>)
    requires SourceStride(data) == Some(stride) && HEADER + Count(data) * stride <= |data|
    requires out == data[..HEADER] + ResizedRecords(Body(data, stride), stride, Count(data)) +
             data[HEADER + Count(data) * stride..]
    ensures Holds(out, Count(data), HEADER + Count(data) * (WINDOWS + MAC - stride),
                  ResizedRecords(Body(data, stride), stride, Count(data)), data[HEADER + Count(data) * stride..])
    ensures out[..HEADER] == data[..HEADER]
  {
    SourceFits(data);
    hide ResizedRecords, SourceStride, Layout, TailFits, U32, Holds;
    ConvertedHolds(data, HEADER + Count(data) * stride, ResizedRecords(Body(data, stride), stride, Count(data)), out);
  }

  /** When a file whose header and tail fit one layout is read with it. */
  lemma SourceIs(data: seq<Byte>, stride: nat)
    requires |data| >= MINIMUM && U32(data, 0) == VERSION && (stride == WINDOWS || stride == MAC)
    requires TailFits(data, HEADER + Count(data) * stride)
    ensures Count(data) == 0 ==> SourceStride(data) == Some(WINDOWS)
    ensures Count(data) != 0 ==>
              SourceStride(data) == if Layout(data, Count(data), WINDOWS + MAC - stride) then None else Some(stride)
  {
    LayoutMeans(data, Count(data), stride);
    LayoutMeans(data, Count(data), WINDOWS + MAC - stride);
  }

  /** Reading back the records of a converted file and putting the file together again. */
  lemma Reassembled(data: seq<Byte>, stride: nat, out: seq<Byte>)
    requires SourceStride(data) == Some(stride) && HEADER + Count(data) * stride <= |data|
    requires stride == WINDOWS ==> AllLossless(Body(data, WINDOWS), Count(data))
    requires out == data[..HEADER] + ResizedRecords(Body(data, stride), stride, Count(data)) +
             data[HEADER + Count(data) * stride..]
    ensures var other := WINDOWS + MAC - stride;
            && HEADER + Count(data) * other <= |out| && Count(out) == Count(data)
            && (other == WINDOWS ==> AllLossless(Body(out, WINDOWS), Count(data)))
            && out[..HEADER] + ResizedRecords(Body(out, other), other, Count(out)) +
              out[HEADER + Count(out) * other..] == data
  {
    ConvertedFile(data, stride, out);
    hide SourceStride, Layout, TailFits, U32, ResizedRecords, AllLossless;
    BodyThereAndBack(Body(data, stride), stride, Count(data));
    Cut(data, HEADER, HEADER + Count(data) * stride);
  }

  lemma Cut(data: seq<Byte>, i: nat, j: nat)
    requires i <= j <= |data|
    ensures data == data[..i] + data[i..j] + data[j..]
  {
  }

  lemma BodyThereAndBack(body: seq<Byte>, stride: nat, n: nat)
    requires (stride == WINDOWS || stride == MAC) && |body| == n * stride
    requires stride == WINDOWS ==> AllLossless(body, n)
    ensures ResizedRecords(ResizedRecords(body, stride, n), WINDOWS + MAC - stride, n) == body
    ensures stride == MAC ==> AllLossless(ResizedRecords(body, stride, n), n)
  {
    RecordsThereAndBack(body, stride, n);
    if stride == MAC { WidenedIsLossless(body, n); }
    assert body[..n * stride] == body;
  }

  /** How a converted file is read: with no plants, as Windows; else in its new layout, unless
      it fits its old one too. */
  lemma ConvertedSource(data: seq<Byte>, stride: nat, out: seq<Byte>)
    requires SourceStride(data) == Some(stride) && HEADER + Count(data) * stride <= |data|
    requires out == data[..HEADER] + ResizedRecords(Body(data, stride), stride, Count(data)) +
             data[HEADER + Count(data) * stride..]
    ensures |out| >= HEADER
    ensures SourceStride(out) ==
            if Count(data) == 0 then Some(WINDOWS)
            else if Layout(out, Count(data), stride) then None
            else Some(WINDOWS + MAC - stride)
  {
    ConvertedFile(data, stride, out);
    SourceIs(out, WINDOWS + MAC - stride);
  }

  /** The return trip of a converted file: byte for byte the original, except that a file whose
      converted form happens to fit its old layout too is refused. */
  lemma ReturnTrip(data: seq<Byte>, toMac: bool)
    requires SourceStride(data) == Some(if toMac then WINDOWS else MAC) && Converted(data, toMac).Some?
    ensures var out := Converted(data, toMac).value;
            && |out| >= HEADER
            && Converted(out, !toMac) ==
               if Count(data) != 0 && Layout(out, Count(data), SourceStride(data).value) then None else Some(data)
  {
    var stride, out := if toMac then WINDOWS else MAC, Converted(data, toMac).value;
    SourceFits(data);
    ConvertedFrom(data, toMac);
    hide SourceStride, Layout, TailFits, U32, ResizedRecords, AllLossless, Converted, Convertible;
    ConvertedSource(data, stride, out);
    Reassembled(data, stride, out);
    if Count(data) == 0 {
      NothingToResize(data, stride, out);
      ConvertedIs(data, !toMac, WINDOWS, []);
    } else if Layout(out, Count(data), stride) {
      Unreadable(out, !toMac);
    } else {
      var other := WINDOWS + MAC - stride;
      ConvertedIs(out, !toMac, other, ResizedRecords(Body(out, other), other, Count(out)));
    }
  }

  // ---------------------------------------------------------------- what is read and what is written

  /** A profile of version 12 with records of the given size: as many as the header says, then 68 bytes and
      as many 72-byte entries as the byte 43 past the records says. */
  predicate ProfileOf(data: seq<Byte>, stride: nat)
  {
    && |data| >= 888 && data[0] == 12 && data[1] == 0 && data[2] == 0 && data[3] == 0
    && var tail := 820 + PlantsIn(data) * stride;
       tail + 68 <= |data| && |data| == tail + 68 + 72 * data[tail + 43] as nat
  }

  function PlantsIn(data: seq<Byte>): nat
    requires |data| >= 888
  {
    data[816] as nat + 0x100 * (data[817] as nat + 0x100 * (data[818] as nat + 0x100 * data[819] as nat))
  }

  /** Which files are read, and how: profiles of one layout but not of both, and those without plants,
      for which there is no difference, as Windows. */
  lemma ReadAs(data: seq<Byte>, stride: nat)
    ensures SourceStride(data) == Some(stride) <==>
            && (stride == 88 || stride == 60) && ProfileOf(data, stride)
            && (ProfileOf(data, 148 - stride) ==> PlantsIn(data) == 0 && stride == 88)
  {
    if |data| >= 888 {
      VersionBytes(data);
      LayoutMeans(data, Count(data), WINDOWS);
      LayoutMeans(data, Count(data), MAC);
      hide U32, Layout;
    }
  }

  lemma VersionBytes(data: seq<Byte>)
    requires |data| >= 888
    ensures Count(data) == PlantsIn(data)
    ensures U32(data, 0) == VERSION <==> data[0] == 12 && data[1] == 0 && data[2] == 0 && data[3] == 0
  {
  }

  /** What a converted profile holds: the header and the tail as they were, and each record cut down or
      padded. Only Windows records that use none of the Windows-only words are cut down. */
  ghost predicate Rendered(data: seq<Byte>, toMac: bool, out: seq<Byte>)
  {
    var from, to := if toMac then 88 else 60, if toMac then 60 else 88;
    && |data| >= 888
    && var n := PlantsIn(data);
       && 820 + n * from <= |data| && |out| == |data| + n * to - n * from
       && 820 + n * to <= |out|
       && out[..820] == data[..820] && out[820 + n * to..] == data[820 + n * from..]
       && forall i :: 0 <= i < n ==> RecordRendered(data, toMac, out, i)
  }

  predicate RecordRendered(data: seq<Byte>, toMac: bool, out: seq<Byte>, i: nat)
  {
    var from, to := if toMac then 88 else 60, if toMac then 60 else 88;
    && 820 + i * from + from <= |data| && 820 + i * to + to <= |out|
    && var r, t := data[820 + i * from..820 + i * from + from], out[820 + i * to..820 + i * to + to];
       if toMac then Narrowed(r, t) && Padded(t, r) else Padded(r, t)
  }

  /** Where the source is of the other kind, that is what the conversion gives. */
  lemma ConvertedRecords(data: seq<Byte>, toMac: bool)
    requires SourceStride(data) == Some(if toMac then 88 else 60) && Converted(data, toMac).Some?
    ensures Rendered(data, toMac, Converted(data, toMac).value)
  {
    var from, to, out := if toMac then 88 else 60, if toMac then 60 else 88, Converted(data, toMac).value;
    SourceFits(data);
    VersionBytes(data);
    ConvertedFrom(data, toMac);
    hide SourceStride, Layout, TailFits, U32, ResizedRecords, AllLossless, Converted, RecordRendered, Count, PlantsIn;
    ConvertedFile(data, from, out);
    var n := Count(data);
    forall i | 0 <= i < n ensures RecordRendered(data, toMac, out, i) {
      RecordConverted(data, toMac, out, n, i);
    }
  }

  lemma RecordConverted(data: seq<Byte>, toMac: bool, out: seq<Byte>, n: nat, i: nat)
    requires var from, to := if toMac then 88 else 60, if toMac then 60 else 88;
             && HEADER + n * from <= |data| && HEADER + n * to <= |out| && i < n
             && out[HEADER..HEADER + n * to] == ResizedRecords(data[HEADER..HEADER + n * from], from, n)
             && (toMac ==> AllLossless(data[HEADER..HEADER + n * from], n))
    ensures RecordRendered(data, toMac, out, i)
  {
    hide ResizedRecords, AllLossless, RecordRendered, Resized;
    var from, to := if toMac then 88 else 60, if toMac then 60 else 88;
    var body := data[HEADER..HEADER + n * from];
    StrideStep(i, from, n);
    StrideStep(i, to, n);
    ResizedAt(body, from, n, i);
    Inside(data, HEADER, HEADER + n * from, i * from, i * from + from);
    Inside(out, HEADER, HEADER + n * to, i * to, i * to + to);
    OneRendered(data, toMac, out, i, body, n);
  }

  /** Record `i` of the resized records is record `i` resized. */
  lemma {:induction false} ResizedAt(body: seq<Byte>, stride: nat, n: nat, i: nat)
    requires (stride == WINDOWS || stride == MAC) && n * stride <= |body| && i < n
    ensures var to := WINDOWS + MAC - stride;
            && i * to + to <= n * to && i * stride + stride <= n * stride
            && ResizedRecords(body, stride, n)[i * to..i * to + to] == Resized(body[i * stride..i * stride + stride])
  {
    hide Resized, Record;
    var to := WINDOWS + MAC - stride;
    StrideStep(i, stride, n);
    StrideStep(i, to, n);
    StrideStep(n - 1, stride, n);
    RecordIs(body, stride, n - 1);
    var rest, last := ResizedRecords(body, stride, n - 1), Resized(Record(body, stride, n - 1));
    if i == n - 1 {
      Piece(rest, last, i * to, to);
    } else {
      ResizedAt(body, stride, n - 1, i);
      Piece(rest, last, i * to, to);
    }
  }

  lemma Piece(rest: seq<Byte>, last: seq<Byte>, a: nat, size: nat)
    ensures a + size <= |rest| ==> (rest + last)[a..a + size] == rest[a..a + size]
    ensures a == |rest| && size == |last| ==> (rest + last)[a..a + size] == last
  {
  }

  lemma OneRendered(data: seq<Byte>, toMac: bool, out: seq<Byte>, i: nat, body: seq<Byte>, n: nat)
    requires var from, to := if toMac then 88 else 60, if toMac then 60 else 88;
             && 820 + i * from + from <= |data| && 820 + i * to + to <= |out| && n * from == |body|
             && i * from + from <= |body| && i < n
             && body[i * from..i * from + from] == data[820 + i * from..820 + i * from + from]
             && out[820 + i * to..820 + i * to + to] == Resized(body[i * from..i * from + from])
    requires toMac ==> AllLossless(body, n)
    ensures RecordRendered(data, toMac, out, i)
  {
    hide Lossless;
    var from := if toMac then 88 else 60;
    var r := data[820 + i * from..820 + i * from + from];
    if toMac {
      RecordIs(body, WINDOWS, i);
      assert Lossless(Record(body, WINDOWS, i));
      ToMacCuts(r);
      ThereAndBack(r);
      ToWindowsPads(ToMac(r));
    } else {
      ToWindowsPads(r);
    }
    hide ToMac, ToWindows, Narrowed, Padded, Record, AllLossless;
  }

  /** Every file that is read is converted, except that a Windows profile is turned down for Mac when
      one of its records uses a word that has no place in a Mac record. */
  lemma NotRepresentable(data: seq<Byte>)
    requires SourceStride(data) == Some(88)
    ensures Converted(data, false).Some?
    ensures |data| >= 888 && 820 + PlantsIn(data) * 88 <= |data|
    ensures Converted(data, true).Some? <==>
            forall i :: 0 <= i < PlantsIn(data) ==>
              820 + i * 88 + 88 <= |data| && WordsOmitted(data[820 + i * 88..820 + i * 88 + 88])
  {
    SourceFits(data);
    VersionBytes(data);
    hide SourceStride, Layout, TailFits, U32, ResizedRecords, Count, WordsOmitted, Lossless;
    var n, body := Count(data), Body(data, WINDOWS);
    forall i | 0 <= i < n
      ensures (i + 1) * WINDOWS <= |body| && 820 + i * 88 + 88 <= |data|
      ensures Lossless(Record(body, WINDOWS, i)) <==> WordsOmitted(data[820 + i * 88..820 + i * 88 + 88]) {
      StrideStep(i, WINDOWS, n);
      RecordIs(body, WINDOWS, i);
      Inside(data, HEADER, HEADER + n * WINDOWS, i * WINDOWS, i * WINDOWS + WINDOWS);
      OmittedWords(Record(body, WINDOWS, i));
    }
    hide Body, Record;
  }

  lemma MacConverts(data: seq<Byte>, toMac: bool)
    requires SourceStride(data) == Some(60)
    ensures Converted(data, toMac).Some?
  {
    hide SourceStride, ResizedRecords, AllLossless;
  }

  /** The words of a Windows record that have no place in a Mac record are zero. */
  predicate WordsOmitted(r: seq<Byte>) {
    |r| == 88 && r[20..24] == r[28..32] == r[52..56] == r[60..64] == r[76..80] == r[80..84] == r[84..88] == [0, 0, 0, 0]
  }

  lemma OmittedWords(r: seq<Byte>)
    requires |r| == WINDOWS
    ensures Lossless(r) <==> WordsOmitted(r)
  {
    LosslessBytes(r);
    hide Lossless;
    if WordsOmitted(r) {
      forall i | 0 <= i < WINDOWS && !Kept(i) ensures r[i] == 0 {
        var j := if i < 24 then 20 else if i < 32 then 28 else if i < 56 then 52 else if i < 64 then 60
          else if i < 80 then 76 else if i < 84 then 80 else 84;
        assert r[i] == r[j..j + 4][i - j];
      }
    }
  }

  // ---------------------------------------------------------------- the return trip

  /** Where a Mac file keeps the byte that comes to stand 43 past its own end of records once they
      have been widened. */
  function Widened(count: nat): (i: nat)
    requires Kept((MAC * count + 43) % WINDOWS)
  {
    HEADER + MAC * ((MAC * count + 43) / WINDOWS) + MacIndex((MAC * count + 43) % WINDOWS)
  }

  /** The profiles that convert and whose converted form the converter will not read. From
      Windows: there is a tail 116 bytes a plant past the header as well. From Mac: a kept byte of
      a plant exceeds the number of entries in the tail by seven for every eighteen plants. */
  predicate Unreturnable(data: seq<Byte>, toMac: bool)
    requires |data| >= HEADER
  {
    var count := Count(data);
    count != 0 &&
    if toMac then TailFits(data, HEADER + (WINDOWS + WINDOWS - MAC) * count)
    else
      && Kept((MAC * count + 43) % WINDOWS)
      && Widened(count) < |data| && HEADER + MAC * count + 43 < |data|
      && 7 * count == 18 * (data[Widened(count)] as int - data[HEADER + MAC * count + 43] as int)
  }

  /** The return trip gives the original byte for byte, or nothing, and what decides between the two
      can be read off the original. */
  lemma RoundTrip(data: seq<Byte>, toMac: bool)
    requires SourceStride(data) == Some(if toMac then WINDOWS else MAC) && Converted(data, toMac).Some?
    ensures |data| >= HEADER
    ensures Converted(Converted(data, toMac).value, !toMac) ==
            if Unreturnable(data, toMac) then None else Some(data)
  {
    SourceFits(data);
    ConvertedFrom(data, toMac);
    hide Layout, TailFits, U32, ResizedRecords, AllLossless, Converted, Unreturnable;
    ReturnTrip(data, toMac);
    OldLayout(data, toMac, Converted(data, toMac).value);
  }

  /** Whether the converted form fits the layout it comes from. */
  lemma OldLayout(data: seq<Byte>, toMac: bool, out: seq<Byte>)
    requires var stride := if toMac then WINDOWS else MAC;
             && HEADER <= |data| && TailFits(data, HEADER + Count(data) * stride)
             && out == data[..HEADER] + ResizedRecords(Body(data, stride), stride, Count(data)) +
               data[HEADER + Count(data) * stride..]
    ensures |out| >= HEADER
    ensures Count(data) != 0 && Layout(out, Count(data), if toMac then WINDOWS else MAC) <==>
            Unreturnable(data, toMac)
  {
    var count, stride := Count(data), if toMac then WINDOWS else MAC;
    hide U32, ResizedRecords;
    LayoutMeans(out, count, stride);
    if count != 0 {
      if toMac {
        NarrowedFits(data, count, ResizedRecords(Body(data, stride), stride, count), out);
      } else {
        WidenedFits(data, count, out);
      }
    }
  }

  lemma NarrowedFits(data: seq<Byte>, count: nat, records: seq<Byte>, out: seq<Byte>)
    requires HEADER + count * WINDOWS <= |data| && |records| == count * MAC
    requires out == data[..HEADER] + records + data[HEADER + count * WINDOWS..]
    ensures TailFits(out, HEADER + count * WINDOWS) <==> TailFits(data, HEADER + (WINDOWS + WINDOWS - MAC) * count)
  {
    var i := HEADER + count * WINDOWS + 43;
    assert i < |out| ==> out[i] == data[HEADER + (WINDOWS + WINDOWS - MAC) * count + 43];
  }

  lemma WidenedFits(data: seq<Byte>, count: nat, out: seq<Byte>)
    requires |data| >= HEADER && count == Count(data) != 0 && TailFits(data, HEADER + count * MAC)
    requires out == data[..HEADER] + ResizedRecords(Body(data, MAC), MAC, count) + data[HEADER + count * MAC..]
    ensures TailFits(out, HEADER + count * MAC) <==> Unreturnable(data, false)
  {
    hide U32, ResizedRecords, Kept, Widened;
    var p := MAC * count + 43;
    assert |out| == |data| + (WINDOWS - MAC) * count;
    if count > 1 {
      WidenedEntry(data, count, out);
      Entries(count, data[HEADER + p] as nat, out[HEADER + p] as nat);
    }
  }

  lemma Entries(count: nat, a: nat, b: nat)
    ensures (WINDOWS - MAC) * count + 72 * a == 72 * b <==> 7 * count == 18 * (b - a)
  {
  }

  lemma WidenedEntry(data: seq<Byte>, count: nat, out: seq<Byte>)
    requires |data| >= HEADER && count == Count(data) > 1 && TailFits(data, HEADER + count * MAC)
    requires out == data[..HEADER] + ResizedRecords(Body(data, MAC), MAC, count) + data[HEADER + count * MAC..]
    ensures var p := MAC * count + 43;
            && HEADER + p < |out|
            && (Kept(p % WINDOWS) ==> Widened(count) < |data|)
            && out[HEADER + p] == if Kept(p % WINDOWS) then data[Widened(count)] else 0
  {
    hide U32, ResizedRecords, Kept, MacIndex;
    var body, p := Body(data, MAC), MAC * count + 43;
    WidenedByte(body, count, p);
    Second(data[..HEADER], ResizedRecords(body, MAC, count), data[HEADER + count * MAC..], p);
    assert Kept(p % WINDOWS) ==> body[Widened(count) - HEADER] == data[Widened(count)];
  }

  lemma Second(a: seq<Byte>, b: seq<Byte>, c: seq<Byte>, i: nat)
    requires i < |b|
    ensures (a + b + c)[|a| + i] == b[i]
  {
  }

  lemma WidenedByte(body: seq<Byte>, n: nat, p: nat)
    requires n * MAC <= |body| && p < n * WINDOWS
    ensures Kept(p % WINDOWS) ==> MAC * (p / WINDOWS) + MacIndex(p % WINDOWS) < n * MAC
    ensures ResizedRecords(body, MAC, n)[p] ==
            if Kept(p % WINDOWS) then body[MAC * (p / WINDOWS) + MacIndex(p % WINDOWS)] else 0
  {
    if p >= (n - 1) * WINDOWS {
      assert p / WINDOWS == n - 1 && p % WINDOWS == p - (n - 1) * WINDOWS;
    } else {
      WidenedByte(body, n - 1, p);
    }
  }

  lemma ConvertedFrom(data: seq<Byte>, toMac: bool)
    requires SourceStride(data) == Some(if toMac then WINDOWS else MAC) && Converted(data, toMac).Some?
    ensures var stride := if toMac then WINDOWS else MAC;
            && HEADER <= |data| && HEADER + Count(data) * stride <= |data|
            && (stride == WINDOWS ==> AllLossless(Body(data, WINDOWS), Count(data)))
            && Converted(data, toMac).value ==
               data[..HEADER] + ResizedRecords(Body(data, stride), stride, Count(data)) +
                 data[HEADER + Count(data) * stride..]
  {
    SourceFits(data);
    hide Layout, U32, ResizedRecords, AllLossless;
  }

  lemma Unreadable(data: seq<Byte>, toMac: bool)
    requires SourceStride(data) == None
    ensures Converted(data, toMac) == None
  {
    hide SourceStride, ResizedRecords, AllLossless;
  }

  lemma ConvertedIs(data: seq<Byte>, toMac: bool, stride: nat, records: seq<Byte>)
    requires SourceStride(data) == Some(stride) && HEADER <= |data| && HEADER + Count(data) * stride <= |data|
    requires if stride == (if toMac then MAC else WINDOWS) then records == Body(data, stride)
             else
               && (stride == WINDOWS ==> AllLossless(Body(data, stride), Count(data)))
               && records == ResizedRecords(Body(data, stride), stride, Count(data))
    ensures Converted(data, toMac) == Some(data[..HEADER] + records + data[HEADER + Count(data) * stride..])
  {
    hide Layout, U32, ResizedRecords, AllLossless;
    Cut(data, HEADER, HEADER + Count(data) * stride);
  }

  lemma NothingToResize(data: seq<Byte>, stride: nat, out: seq<Byte>)
    requires |data| >= HEADER && Count(data) == 0 && (stride == WINDOWS || stride == MAC)
    requires out == data[..HEADER] + ResizedRecords(Body(data, stride), stride, Count(data)) +
             data[HEADER + Count(data) * stride..]
    ensures out == data
  {
  }

  /** A file can fit both layouts only if its plants come in eighteens. */
  lemma BothLayouts(data: seq<Byte>, count: nat)
    requires |data| >= HEADER && Layout(data, count, WINDOWS) && Layout(data, count, MAC)
    ensures count % 18 == 0
  {
    var a, b := data[HEADER + count * MAC + 43] as nat, data[HEADER + count * WINDOWS + 43] as nat;
    Eighteens(count, a - b);
  }

  lemma Eighteens(count: nat, d: int)
    requires 7 * count == 18 * d
    ensures count % 18 == 0
  {
    assert count == 18 * (13 * d - 5 * count);
  }

  /** So for every other number of plants a converted file always comes back as it was. */
  lemma RoundTripAccepted(data: seq<Byte>, toMac: bool)
    requires SourceStride(data) == Some(if toMac then WINDOWS else MAC) && Converted(data, toMac).Some?
    requires Count(data) == 0 || Count(data) % 18 != 0
    ensures Converted(Converted(data, toMac).value, !toMac) == Some(data)
  {
    ReturnTrip(data, toMac);
    var out, stride := Converted(data, toMac).value, SourceStride(data).value;
    SourceFits(data);
    ConvertedFile(data, stride, out);
    LayoutMeans(out, Count(data), WINDOWS + MAC - stride);
    hide SourceStride, Layout, TailFits, U32, ResizedRecords, AllLossless, Converted;
    if Count(data) != 0 && Layout(out, Count(data), stride) {
      BothLayouts(out, Count(data));
    }
  }

  // ---------------------------------------------------------------- a return trip that is refused

  /** A Windows profile of 18 empty plants whose tail ends with seven entries. */
  function Eighteen(): (data: seq<Byte>)
    ensures |data| == 2976
  {
    seq(2976, i => if i == 0 then 12 else if i == COUNT_AT then 18 else if i == 2447 then 7 else 0)
  }

  lemma EighteenRecords(n: nat)
    requires n <= 18
    ensures n * WINDOWS <= |Eighteen()[HEADER..2404]| && AllLossless(Eighteen()[HEADER..2404], n)
  {
    var body := Eighteen()[HEADER..2404];
    forall i | 0 <= i < n ensures (i + 1) * WINDOWS <= |body| && Lossless(Record(body, WINDOWS, i)) {
      var r := Record(body, WINDOWS, i);
      forall k | 0 <= k < WINDOWS ensures r[k] == 0 {
        assert r[k] == body[i * WINDOWS + k] == Eighteen()[HEADER + i * WINDOWS + k];
      }
    }
  }

  /** How the converter reads it. */
  lemma EighteenSource()
    ensures Count(Eighteen()) == 18 && SourceStride(Eighteen()) == Some(WINDOWS)
    ensures Body(Eighteen(), WINDOWS) == Eighteen()[HEADER..2404]
  {
    var data := Eighteen();
    assert Count(data) == 18 && U32(data, 0) == VERSION;
    assert data[2404 + 43] == 7 && data[1900 + 43] == 0;
    LayoutMeans(data, 18, WINDOWS);
    LayoutMeans(data, 18, MAC);
  }

  /** The condition is needed: this profile converts to Mac, and the result is refused. */
  lemma ReturnRefused()
    ensures SourceStride(Eighteen()) == Some(WINDOWS) && Converted(Eighteen(), true).Some?
    ensures Converted(Converted(Eighteen(), true).value, false) == None
  {
    EighteenSource();
    EighteenRecords(18);
    hide Layout, U32, ResizedRecords, AllLossless, Eighteen;
    ReturnTrip(Eighteen(), true);
    EighteenFitsBoth(Converted(Eighteen(), true).value);
  }

  lemma EighteenFitsBoth(out: seq<Byte>)
    requires HEADER + 18 * WINDOWS <= |Eighteen()| && |Eighteen()[HEADER..HEADER + 18 * WINDOWS]| == 18 * WINDOWS
    requires out == Eighteen()[..HEADER] + ResizedRecords(Eighteen()[HEADER..HEADER + 18 * WINDOWS], WINDOWS, 18) +
             Eighteen()[HEADER + 18 * WINDOWS..]
    ensures |out| >= HEADER && Layout(out, 18, WINDOWS)
  {
    hide ResizedRecords;
    var tail := Eighteen()[2404..];
    assert |out| == 2472 && out[2447] == tail[547] == Eighteen()[2951] == 0;
    hide Eighteen;
    LayoutMeans(out, 18, WINDOWS);
  }

  // ---------------------------------------------------------------- the conversion itself

  const WINDOWS_FIELDS: seq<nat> := [0, 24, 32, 56, 64]
  const MAC_FIELDS: seq<nat> := [0, 20, 24, 44, 48]
  const FIELD_LENGTHS: seq<nat> := [20, 4, 20, 4, 12]

  /** Whether any Windows-only field of the record at `src` is in use. */
  method UsesOmitted(data: seq<Byte>, src: nat) returns (used: bool)
    requires src + WINDOWS <= |data|
    ensures used <==> !Lossless(data[src..src + WINDOWS])
  {
    var j := 0;
    while j < |OMITTED|
      invariant j <= |OMITTED|
      invariant forall k :: 0 <= k < j ==> U32(data[src..src + WINDOWS], OMITTED[k]) == 0
    {
      if U32(data, src + OMITTED[j]) != 0 {
        return true;
      }
      j := j + 1;
    }
    used := false;
  }

  /** How much of the target record is final once `j` fields have been copied. */
  function Done(toMac: bool, j: nat): (d: nat)
    requires j <= 5
    ensures d <= if toMac then MAC else WINDOWS
  {
    if j == 5 then (if toMac then MAC else WINDOWS) else if toMac then MAC_FIELDS[j] else WINDOWS_FIELDS[j]
  }

  function FieldFrom(toMac: bool, j: nat): (from: nat)
    requires j < 5
    ensures from + FIELD_LENGTHS[j] <= if toMac then WINDOWS else MAC
  {
    if toMac then WINDOWS_FIELDS[j] else MAC_FIELDS[j]
  }

  /** Field `j` of a converted record is that field of the original, and zeros up to the next. */
  lemma FieldMoves(r: seq<Byte>, j: nat)
    requires (|r| == WINDOWS || |r| == MAC) && j < 5
    ensures var toMac := |r| == WINDOWS;
            var to, from, n, end, t := Done(toMac, j), FieldFrom(toMac, j), FIELD_LENGTHS[j], Done(toMac, j + 1),
              Resized(r);
            && to + n <= end <= |t|
            && (forall k :: to <= k < to + n ==> t[k] == r[from + (k - to)])
            && (forall k :: to + n <= k < end ==> t[k] == 0)
  {
    if |r| == WINDOWS {
      FieldToMac(r, j);
    } else {
      FieldToWindows(r, j);
    }
  }

  lemma FieldToMac(r: seq<Byte>, j: nat)
    requires |r| == WINDOWS && j < 5
    ensures Done(true, j) + FIELD_LENGTHS[j] == Done(true, j + 1) <= MAC
    ensures forall k :: Done(true, j) <= k < Done(true, j + 1) ==>
            ToMac(r)[k] == r[FieldFrom(true, j) + (k - Done(true, j))]
  {
  }

  lemma FieldToWindows(r: seq<Byte>, j: nat)
    requires |r| == MAC && j < 5
    ensures Done(false, j) + FIELD_LENGTHS[j] <= Done(false, j + 1) <= WINDOWS
    ensures forall k :: Done(false, j) <= k < Done(false, j) + FIELD_LENGTHS[j] ==>
            ToWindows(r)[k] == r[FieldFrom(false, j) + (k - Done(false, j))]
    ensures forall k :: Done(false, j) + FIELD_LENGTHS[j] <= k < Done(false, j + 1) ==> ToWindows(r)[k] == 0
  {
  }

  lemma DoneEnds(toMac: bool)
    ensures Done(toMac, 0) == 0 && Done(toMac, 5) == if toMac then MAC else WINDOWS
  {
  }

  /** Copies the five fields both layouts share into an all-zero record. */
  method CopyFields(out: array<Byte>, dst: nat, r: seq<Byte>)
    requires |r| == WINDOWS || |r| == MAC
    requires dst + |Resized(r)| <= out.Length
    requires forall k :: dst <= k < out.Length ==> out[k] == 0
    modifies out
    ensures out[..dst] == old(out[..dst])
    ensures out[dst..dst + |Resized(r)|] == Resized(r)
    ensures forall k :: dst + |Resized(r)| <= k < out.Length ==> out[k] == 0
  {
    hide Resized, Done, FieldFrom;
    ghost var t, before := Resized(r), out[..dst];
    var toMac := |r| == WINDOWS;
    DoneEnds(toMac);
    var j := 0;
    while j < 5
      invariant j <= 5
      invariant forall k :: 0 <= k < dst ==> out[k] == before[k]
      invariant forall k :: 0 <= k < Done(toMac, j) ==> out[dst + k] == t[k]
      invariant forall k :: dst + Done(toMac, j) <= k < out.Length ==> out[k] == 0
    {
      FieldMoves(r, j);
      var to, from, n := Done(toMac, j), FieldFrom(toMac, j), FIELD_LENGTHS[j];
      Copy(out, dst + to, r[from..from + n]);
      j := j + 1;
    }
  }

  lemma StrideStep(i: nat, stride: nat, count: nat)
    requires i < count
    ensures (i + 1) * stride == i * stride + stride && (i + 1) * stride <= count * stride
  {
    assert (count - (i + 1)) * stride >= 0;
  }

  /** One record; refused if it is a Windows record that would lose something. */
  method ConvertOne(out: array<Byte>, dst: nat, data: seq<Byte>, src: nat, stride: nat) returns (ok: bool)
    requires (stride == WINDOWS || stride == MAC) && src + stride <= |data|
             && dst + (WINDOWS + MAC - stride) <= out.Length
    requires forall k :: dst <= k < out.Length ==> out[k] == 0
    modifies out
    ensures out[..dst] == old(out[..dst])
    ensures ok <==> (stride == WINDOWS ==> Lossless(data[src..src + WINDOWS]))
    ensures ok ==> out[dst..dst + (WINDOWS + MAC - stride)] == Resized(data[src..src + stride])
    ensures ok ==> forall k :: dst + (WINDOWS + MAC - stride) <= k < out.Length ==> out[k] == 0
  {
    if stride == WINDOWS {
      var used := UsesOmitted(data, src);
      if used {
        return false;
      }
    }
    hide Resized;
    CopyFields(out, dst, data[src..src + stride]);
    ok := true;
  }

  /** The loop over the records. */
  method ConvertRecords(out: array<Byte>, data: seq<Byte>, count: nat, stride: nat, target: nat) returns (ok: bool)
    requires (stride == WINDOWS || stride == MAC) && target == WINDOWS + MAC - stride
    requires HEADER + count * stride <= |data| && HEADER + count * target <= out.Length
    requires forall k :: HEADER <= k < out.Length ==> out[k] == 0
    modifies out
    ensures out[..HEADER] == old(out[..HEADER])
    ensures ok <==> (stride == WINDOWS ==> AllLossless(data[HEADER..HEADER + count * stride], count))
    ensures ok ==>
              out[HEADER..HEADER + count * target] ==
              ResizedRecords(data[HEADER..HEADER + count * stride], stride, count)
  {
    hide Resized, Lossless, Record, AllLossless, ResizedRecords;
    ghost var body, header := data[HEADER..HEADER + count * stride], out[..HEADER];
    NoRecords(body, stride);
    var i := 0;
    while i < count
      invariant i <= count && i * stride <= |body| && HEADER + i * target <= out.Length
      invariant out[..HEADER] == header
      invariant stride == WINDOWS ==> AllLossless(body, i)
      invariant out[HEADER..HEADER + i * target] == ResizedRecords(body, stride, i)
      invariant forall k :: HEADER + i * target <= k < out.Length ==> out[k] == 0
    {
      StrideStep(i, stride, count);
      StrideStep(i, target, count);
      var src, dst := HEADER + i * stride, HEADER + i * target;
      RecordStep(data, body, count, stride, i);
      ghost var was := out[..dst];
      var fine := ConvertOne(out, dst, data, src, stride);
      if !fine {
        return false;
      }
      Extended(was, out[..], HEADER, dst, dst + target);
      i := i + 1;
    }
    ok := true;
  }

  lemma NoRecords(body: seq<Byte>, stride: nat)
    requires stride == WINDOWS || stride == MAC
    ensures AllLossless(body, 0) && ResizedRecords(body, stride, 0) == []
  {
  }

  /** What record `i` adds to the records before it. */
  lemma RecordStep(data: seq<Byte>, body: seq<Byte>, count: nat, stride: nat, i: nat)
    requires (stride == WINDOWS || stride == MAC) && i < count && HEADER + count * stride <= |data|
    requires body == data[HEADER..HEADER + count * stride]
    requires i * stride + stride == (i + 1) * stride <= |body|
    ensures ResizedRecords(body, stride, i + 1) ==
            ResizedRecords(body, stride, i) + Resized(data[HEADER + i * stride..HEADER + i * stride + stride])
    ensures stride == WINDOWS && AllLossless(body, i)
            && Lossless(data[HEADER + i * stride..HEADER + i * stride + WINDOWS]) ==>
              AllLossless(body, i + 1)
    ensures stride == WINDOWS && !Lossless(data[HEADER + i * stride..HEADER + i * stride + WINDOWS]) ==>
              !AllLossless(body, count)
  {
    hide Resized, Lossless;
    Inside(data, HEADER, HEADER + count * stride, i * stride, i * stride + stride);
    RecordIs(body, stride, i);
    hide Record;
    assert stride == WINDOWS ==> Record(body, WINDOWS, i) == Record(body, stride, i);
  }

  lemma RecordIs(body: seq<Byte>, stride: nat, i: nat)
    requires (i + 1) * stride == i * stride + stride <= |body|
    ensures Record(body, stride, i) == body[i * stride..i * stride + stride]
  {
  }

  lemma Inside(data: seq<Byte>, lo: nat, hi: nat, a: nat, b: nat)
    requires lo <= hi <= |data| && a <= b <= hi - lo
    ensures data[lo..hi][a..b] == data[lo + a..lo + b]
  {
    var x, y := data[lo..hi][a..b], data[lo + a..lo + b];
    assert |x| == |y| && forall k :: 0 <= k < |x| ==> x[k] == data[lo + a + k] == y[k];
  }

  lemma Extended(was: seq<Byte>, out: seq<Byte>, lo: nat, mid: nat, hi: nat)
    requires lo <= mid <= hi <= |out| && was == out[..mid]
    ensures out[lo..hi] == was[lo..] + out[mid..hi] && out[..lo] == was[..lo]
  {
  }

  ghost predicate Representable(data: seq<Byte>, stride: nat, target: nat)
    requires HEADER <= |data| && HEADER + Count(data) * stride <= |data|
  {
    stride == WINDOWS && target == MAC ==> AllLossless(Body(data, WINDOWS), Count(data))
  }

  ghost function TargetRecords(data: seq<Byte>, stride: nat, target: nat): seq<Byte>
    requires HEADER <= |data| && HEADER + Count(data) * stride <= |data| && (stride == WINDOWS || stride == MAC)
  {
    if stride == target then Body(data, stride) else ResizedRecords(Body(data, stride), stride, Count(data))
  }

  /** The header and the records of the output, in a zeroed buffer with room for the tail. */
  method Fill(data: seq<Byte>, count: nat, stride: nat, target: nat, tail: nat) returns (ok: bool, out: array<Byte>)
    requires HEADER <= |data| && count == Count(data) && tail == HEADER + count * stride <= |data|
    requires (stride == WINDOWS || stride == MAC) && (target == WINDOWS || target == MAC)
    ensures fresh(out) && out.Length == HEADER + count * target + (|data| - tail)
    ensures ok <==> Representable(data, stride, target)
    ensures ok ==> out[..HEADER + count * target] == data[..HEADER] + TargetRecords(data, stride, target)
  {
    hide U32, ResizedRecords, AllLossless;
    out := new Byte[HEADER + count * target + (|data| - tail)](_ => 0);
    Place(out, 0, data[..HEADER]);
    ok := true;
    if stride == target {
      Place(out, HEADER, data[HEADER..tail]);
    } else {
      ok := ConvertRecords(out, data, count, stride, target);
    }
    ghost var filled := out[..HEADER + count * target];
    assert filled == filled[..HEADER] + filled[HEADER..];
  }

  /** pvz_save_convert. `memory` says whether a buffer for the output can be had. */
  method Convert(data: seq<Byte>, toMac: bool, memory: bool) returns (result: Option<seq<Byte>>)
    ensures result == if memory then Converted(data, toMac) else None
    ensures result.Some? ==> Promised(data, toMac, result.value)
  {
    hide Promised;
    ConvertedAs(data, toMac);
    hide SourceStride, Layout, TailFits, U32, ResizedRecords, AllLossless;
    var source := SourceStride(data);
    if source.None? {
      return None;
    }
    if !memory {
      return None;
    }
    SourceFits(data);
    var count, stride, target := Count(data), source.value, if toMac then MAC else WINDOWS;
    var tail := HEADER + count * stride;
    var ok, out := Fill(data, count, stride, target, tail);
    if !ok {
      return None;
    }
    ConvertedIs(data, toMac, stride, TargetRecords(data, stride, target));
    hide Converted, Convertible, TargetRecords, Representable;
    ghost var filled := out[..HEADER + count * target];
    Place(out, HEADER + count * target, data[tail..]);
    assert out[..] == filled + data[tail..];
    result := Some(out[..]);
  }

  /** What the converter answers for a profile: the profile itself if it has the wanted layout, and else its
      records cut down or padded. */
  ghost predicate Promised(data: seq<Byte>, toMac: bool, out: seq<Byte>)
  {
    if ProfileOf(data, if toMac then 60 else 88) then out == data
    else ProfileOf(data, if toMac then 88 else 60) && Rendered(data, toMac, out)
  }

  lemma ConvertedAs(data: seq<Byte>, toMac: bool)
    ensures Converted(data, toMac).Some? ==> Promised(data, toMac, Converted(data, toMac).value)
  {
    ReadAs(data, 88);
    ReadAs(data, 60);
    hide SourceStride, ResizedRecords, AllLossless, Rendered, ProfileOf, PlantsIn;
    if Converted(data, toMac).Some? && SourceStride(data) == Some(if toMac then 88 else 60) {
      ConvertedRecords(data, toMac);
    }
  }

  /** memcpy of a stretch of the output. */
  method Place(out: array<Byte>, at: nat, bytes: seq<Byte>)
    requires at + |bytes| <= out.Length
    modifies out
    ensures out[..at] == old(out[..at]) && out[at..at + |bytes|] == bytes
    ensures forall k :: at + |bytes| <= k < out.Length ==> out[k] == old(out[k])
  {
    Copy(out, at, bytes);
  }
}
