/** Converting planar float audio to interleaved PCM, with and without dither. */
module PcmConvert {
  import opened Options
  import opened Arithmetic
  import opened Pcm
  import opened Dither

  // ---------- Planar conversion ----------

  /** Writes the first n samples of a frame at a position. */
  function WriteFrame(mem: seq<int>, pos: int, frame: nat -> int, n: nat): (r: seq<int>)
    requires 0 <= pos && pos + n <= |mem|
    ensures |r| == |mem|
    ensures forall k {:trigger r[k]} :: 0 <= k < |mem| ==> r[k] == if pos <= k < pos + n then frame(k - pos) else mem[k]
  {
    if n == 0 then mem else WriteFrame(mem, pos, frame, n - 1)[pos + n - 1 := frame(n - 1)]
  }

  /** The cell of a frame's first sample. */
  function FrameStart(f: int, stride: int): int {
    f * stride
  }

  /** The buffer has room for all frames. */
  predicate Fits(length: int, stride: int, channels: int, frames: int) {
    frames <= 0 || FrameStart(frames - 1, stride) + channels <= length
  }

  lemma FrameStartStep(f: nat, n: nat, stride: nat)
    ensures FrameStart(f + 1, stride) == FrameStart(f, stride) + stride
    ensures 0 <= FrameStart(f, stride)
    ensures f < n ==> FrameStart(f, stride) + stride <= FrameStart(n, stride)
  {
    assert (f + 1) * stride == f * stride + stride;
    if f < n {
      LargeMultiple(n - f, stride);
      assert (n - f) * stride == n * stride - f * stride;
    }
  }

  lemma FirstFrame(stride: int)
    ensures FrameStart(0, stride) == 0
  {
  }

  lemma AdvanceStart(size: nat)
    requires 0 < size
    ensures Advance(0, 0, size) == 0
  {
  }

  lemma AdvanceNext(f: nat, size: nat)
    requires 0 < size
    ensures Advance(0, f + 1, size) == NextIndex(Advance(0, f, size), size)
  {
  }

  lemma FitsEarlier(length: int, stride: nat, channels: nat, frames: nat, f: nat)
    requires f < frames && Fits(length, stride, channels, frames)
    ensures 0 <= FrameStart(f, stride) && FrameStart(f, stride) + channels <= length
  {
    FrameStartStep(f, frames - 1, stride);
  }

  /** The samples of one frame. */
  function Row(sample: (nat, nat) -> int, f: nat): nat -> int {
    (ch: nat) => sample(f, ch)
  }

  /** The memory after n frames were written, one stride apart. */
  function Planar(mem: seq<int>, sample: (nat, nat) -> int, stride: nat, channels: nat, n: nat): (r: seq<int>)
    requires Fits(|mem|, stride, channels, n)
    ensures |r| == |mem|
  {
    if n == 0 then mem
    else
      FrameStartStep(n - 1, n, stride);
      assert n >= 2 ==> Fits(|mem|, stride, channels, n - 1) by { if n >= 2 { FrameStartStep(n - 2, n - 1, stride); } }
      WriteFrame(Planar(mem, sample, stride, channels, n - 1), FrameStart(n - 1, stride), Row(sample, n - 1), channels)
  }

  /** Each (frame, channel) pair has a cell of its own. */
  lemma CellsDistinct(f: nat, ch: nat, f': nat, ch': nat, stride: nat)
    requires ch < stride && ch' < stride
    requires FrameStart(f, stride) + ch == FrameStart(f', stride) + ch'
    ensures f == f' && ch == ch'
  {
    DivModUnique(FrameStart(f, stride) + ch, f, ch, stride);
    DivModUnique(FrameStart(f, stride) + ch, f', ch', stride);
  }

  /** Every sample ends up in its cell, also when later frames have been written. */
  lemma {:induction false} PlanarWritten(mem: seq<int>, sample: (nat, nat) -> int, stride: nat, channels: nat, n: nat,
                                         f: nat, ch: nat)
    requires channels <= stride && Fits(|mem|, stride, channels, n)
    requires f < n && ch < channels
    ensures 0 <= FrameStart(f, stride) + ch < |mem|
    ensures Planar(mem, sample, stride, channels, n)[FrameStart(f, stride) + ch] == sample(f, ch)
  {
    FitsEarlier(|mem|, stride, channels, n, f);
    if f < n - 1 {
      FitsEarlier(|mem|, stride, channels, n, n - 2);
      FrameStartStep(f, n - 1, stride);
      PlanarWritten(mem, sample, stride, channels, n - 1, f, ch);
    }
  }

  /** Cells outside the frames keep what they held. */
  lemma {:induction false} PlanarUntouched(mem: seq<int>, sample: (nat, nat) -> int, stride: nat, channels: nat, n: nat,
                                           k: nat)
    requires Fits(|mem|, stride, channels, n) && k < |mem|
    requires forall f: nat :: f < n ==> !(FrameStart(f, stride) <= k < FrameStart(f, stride) + channels)
    ensures Planar(mem, sample, stride, channels, n)[k] == mem[k]
  {
    if n != 0 {
      FrameStartStep(n - 1, n, stride);
      if n >= 2 {
        FitsEarlier(|mem|, stride, channels, n, n - 2);
      }
      PlanarUntouched(mem, sample, stride, channels, n - 1, k);
    }
  }

  // ---------- The planar converters ----------

  /** A planar source; the pointers in it may be null. */
  type Source = Option<seq<Option<seq<real>>>>

  /** What the converters accept. */
  predicate ValidArgs(dst: array?<int>, stride: int, src: Source, channels: int, frames: int)
    requires src.Some? ==> channels <= |src.value|
  {
    && dst != null && src.Some? && channels > 0 && frames >= 0 && stride >= channels
    && forall ch :: 0 <= ch < channels ==> src.value[ch].Some?
  }

  /** What the caller has to see to: enough pointers, samples and room. */
  predicate BuffersLargeEnough(dst: array?<int>, stride: int, src: Source, channels: int, frames: int) {
    && (src.Some? ==> channels <= |src.value|)
    && (src.Some? ==> forall ch :: 0 <= ch < channels && src.value[ch].Some? ==> frames <= |src.value[ch].value|)
    && (dst != null ==> Fits(dst.Length, stride, channels, frames))
  }

  method ValidateArgs(dst: array?<int>, stride: int, src: Source, channels: int, frames: int) returns (ok: bool)
    requires src.Some? ==> channels <= |src.value|
    ensures ok <==> ValidArgs(dst, stride, src, channels, frames)
  {
    if dst == null {
      return false;
    }
    if src.None? {
      return false;
    }
    if channels <= 0 {
      return false;
    }
    if frames < 0 {
      return false;
    }
    if stride < channels {
      return false;
    }
    var ch := 0;
    while ch < channels
      invariant 0 <= ch <= channels
      invariant forall c :: 0 <= c < ch ==> src.value[c].Some?
    {
      if src.value[ch].None? {
        return false;
      }
      ch := ch + 1;
    }
    ok := true;
  }

  function SourceAt(src: Source, f: nat, ch: nat): real {
    if src.Some? && ch < |src.value| && src.value[ch].Some? && f < |src.value[ch].value|
    then src.value[ch].value[f] else 0.0
  }

  /** The dither table as two sequences. */
  datatype Tables = Tables(left: seq<real>, right: seq<real>)

  ghost predicate GoodTables(t: Tables) {
    0 < |t.left| == |t.right|
  }

  /** Channels take turns with the two tables; each frame takes the next entry. */
  function DitherAt(t: Tables, f: nat, ch: nat): real
    requires 0 < |t.left| == |t.right|
  {
    (if ch % 2 == 0 then t.left else t.right)[Advance(0, f, |t.left|)]
  }

  function SampleS16(t: Tables, src: Source): (nat, nat) -> int
    requires 0 < |t.left| == |t.right|
  {
    (f: nat, ch: nat) => ToS16(SourceAt(src, f, ch), DitherAt(t, f, ch))
  }

  /** One interleaved frame. */
  method FrameToS16(t: Tables, di: nat, dst: array<int>, pos: nat, src: Source, channels: nat, f: nat)
    requires GoodTables(t) && di == Advance(0, f, |t.left|) && pos + channels <= dst.Length
    requires src.Some? && channels <= |src.value|
    requires forall ch :: 0 <= ch < channels ==> src.value[ch].Some? && f < |src.value[ch].value|
    modifies dst
    ensures dst[..] == WriteFrame(old(dst[..]), pos, Row(SampleS16(t, src), f), channels)
  {
    hide ToS16, Advance;
    ghost var before, row := dst[..], Row(SampleS16(t, src), f);
    var ch := 0;
    while ch < channels
      invariant 0 <= ch <= channels
      invariant dst[..] == WriteFrame(before, pos, row, ch)
    {
      dst[pos + ch] := ToS16(src.value[ch].value[f], (if ch % 2 == 0 then t.left else t.right)[di]);
      ch := ch + 1;
    }
  }

  method PlanarToS16(t: Tables, dst: array?<int>, stride: int, src: Source, channels: int, frames: int)
    returns (ok: bool)
    requires GoodTables(t) && BuffersLargeEnough(dst, stride, src, channels, frames)
    modifies dst
    ensures ok <==> ValidArgs(dst, stride, src, channels, frames)
    ensures dst != null && !ok ==> dst[..] == old(dst[..])
    ensures ok ==> dst[..] == Planar(old(dst[..]), SampleS16(t, src), stride, channels, frames)
  {
    ok := ValidateArgs(dst, stride, src, channels, frames);
    if !ok {
      return;
    }
    if frames == 0 {
      return;
    }
    hide WriteFrame, Row, SampleS16, FrameStart, Advance;
    assert Advance(0, 0, |t.left|) == 0 by { AdvanceStart(|t.left|); }
    var di := 0;
    var pos := 0;
    ghost var before := dst[..];
    ghost var sample := SampleS16(t, src);
    var f := 0;
    FirstFrame(stride);
    while f < frames
      invariant 0 <= f <= frames
      invariant pos == FrameStart(f, stride)
      invariant di == Advance(0, f, |t.left|)
      invariant Fits(|before|, stride, channels, f)
      invariant dst[..] == Planar(before, sample, stride, channels, f)
    {
      FitsEarlier(dst.Length, stride, channels, frames, f);
      FrameToS16(t, di, dst, pos, src, channels, f);
      di := if di + 1 >= |t.left| then 0 else di + 1;
      AdvanceNext(f, |t.left|);
      FrameStartStep(f, f + 1, stride);
      pos := pos + stride;
      f := f + 1;
    }
  }

  /** The dithered sample in a cell, and the entry of the dither table it got. */
  lemma S16Cell(mem: seq<int>, t: Tables, src: Source, stride: nat, channels: nat, n: nat, f: nat, ch: nat)
    requires GoodTables(t) && channels <= stride && f < n && (n - 1) * stride + channels <= |mem| && ch < channels
    requires src.Some? && ch < |src.value| && src.value[ch].Some? && f < |src.value[ch].value|
    ensures 0 <= f * stride + ch < |mem|
    ensures Planar(mem, SampleS16(t, src), stride, channels, n)[f * stride + ch] ==
            ToS16(src.value[ch].value[f], if ch % 2 == 0 then t.left[f % |t.left|] else t.right[f % |t.left|])
  {
    PlanarWritten(mem, SampleS16(t, src), stride, channels, n, f, ch);
    AdvanceIsModulo(0, f, |t.left|);
    hide Planar, ToS16, Advance, Fits;
  }

  function SampleInt32(src: Source, s24: bool): (nat, nat) -> int {
    (f: nat, ch: nat) => if s24 then ToS24(SourceAt(src, f, ch)) else ToS32(SourceAt(src, f, ch))
  }

  method FrameToInt32(dst: array<int>, pos: nat, src: Source, channels: nat, f: nat, s24: bool)
    requires pos + channels <= dst.Length
    requires src.Some? && channels <= |src.value|
    requires forall ch :: 0 <= ch < channels ==> src.value[ch].Some? && f < |src.value[ch].value|
    modifies dst
    ensures dst[..] == WriteFrame(old(dst[..]), pos, Row(SampleInt32(src, s24), f), channels)
  {
    hide ToS24, ToS32;
    ghost var before, row := dst[..], Row(SampleInt32(src, s24), f);
    var ch := 0;
    while ch < channels
      invariant 0 <= ch <= channels
      invariant dst[..] == WriteFrame(before, pos, row, ch)
    {
      var x := src.value[ch].value[f];
      dst[pos + ch] := if s24 then ToS24(x) else ToS32(x);
      ch := ch + 1;
    }
  }

  /** The 24-bit and the 32-bit converter, which differ only in the sample format. */
  method PlanarToInt32(dst: array?<int>, stride: int, src: Source, channels: int, frames: int, s24: bool)
    returns (ok: bool)
    requires BuffersLargeEnough(dst, stride, src, channels, frames)
    modifies dst
    ensures ok <==> ValidArgs(dst, stride, src, channels, frames)
    ensures dst != null && !ok ==> dst[..] == old(dst[..])
    ensures ok ==> dst[..] == Planar(old(dst[..]), SampleInt32(src, s24), stride, channels, frames)
    ensures ok ==> HoldsInt32(dst[..], src, stride, channels, frames, s24)
  {
    ok := ConvertInt32(dst, stride, src, channels, frames, s24);
    hide Planar, HoldsInt32, SampleInt32;
    if ok {
      Int32Cells(old(dst[..]), src, s24, stride, channels, frames);
    }
  }

  method ConvertInt32(dst: array?<int>, stride: int, src: Source, channels: int, frames: int, s24: bool)
    returns (ok: bool)
    requires BuffersLargeEnough(dst, stride, src, channels, frames)
    modifies dst
    ensures ok <==> ValidArgs(dst, stride, src, channels, frames)
    ensures dst != null && !ok ==> dst[..] == old(dst[..])
    ensures ok ==> dst[..] == Planar(old(dst[..]), SampleInt32(src, s24), stride, channels, frames)
  {
    ok := ValidateArgs(dst, stride, src, channels, frames);
    if !ok {
      return;
    }
    if frames == 0 {
      return;
    }
    hide WriteFrame, Row, SampleInt32, FrameStart;
    var pos := 0;
    ghost var before := dst[..];
    ghost var sample := SampleInt32(src, s24);
    var f := 0;
    FirstFrame(stride);
    while f < frames
      invariant 0 <= f <= frames
      invariant pos == FrameStart(f, stride)
      invariant Fits(|before|, stride, channels, f)
      invariant dst[..] == Planar(before, sample, stride, channels, f)
    {
      FitsEarlier(dst.Length, stride, channels, frames, f);
      FrameToInt32(dst, pos, src, channels, f, s24);
      FrameStartStep(f, f + 1, stride);
      pos := pos + stride;
      f := f + 1;
    }
  }

  /** Cell ch of the frame at f * stride holds sample f of channel ch: as 32 bits, or rounded down to a
      multiple of 256. */
  ghost predicate HoldsInt32(out: seq<int>, src: Source, stride: int, channels: int, frames: int, s24: bool) {
    forall f, ch :: 0 <= f < frames && 0 <= ch < channels ==>
      && src.Some? && ch < |src.value| && src.value[ch].Some? && f < |src.value[ch].value|
      && 0 <= f * stride + ch < |out|
      && var s := ToS32(src.value[ch].value[f]); out[f * stride + ch] == if s24 then s - s % 256 else s
  }

  lemma Int32Cells(mem: seq<int>, src: Source, s24: bool, stride: nat, channels: nat, n: nat)
    requires channels <= stride && Fits(|mem|, stride, channels, n)
    requires src.Some? && channels <= |src.value|
    requires forall ch :: 0 <= ch < channels ==> src.value[ch].Some? && n <= |src.value[ch].value|
    ensures HoldsInt32(Planar(mem, SampleInt32(src, s24), stride, channels, n), src, stride, channels, n, s24)
  {
    forall f, ch | 0 <= f < n && 0 <= ch < channels
      ensures 0 <= f * stride + ch < |mem|
      ensures var s := ToS32(src.value[ch].value[f]);
              Planar(mem, SampleInt32(src, s24), stride, channels, n)[f * stride + ch] ==
                if s24 then s - s % 256 else s
    {
      Int32Cell(mem, src, s24, stride, channels, n, f, ch);
    }
  }

  /** The sample in a cell: as 32 bits, or rounded down to a multiple of 256. */
  lemma Int32Cell(mem: seq<int>, src: Source, s24: bool, stride: nat, channels: nat, n: nat, f: nat, ch: nat)
    requires channels <= stride && f < n && (n - 1) * stride + channels <= |mem| && ch < channels
    requires src.Some? && ch < |src.value| && src.value[ch].Some? && f < |src.value[ch].value|
    ensures 0 <= f * stride + ch < |mem|
    ensures var s := ToS32(src.value[ch].value[f]);
            Planar(mem, SampleInt32(src, s24), stride, channels, n)[f * stride + ch] == if s24 then s - s % 256 else s
  {
    PlanarWritten(mem, SampleInt32(src, s24), stride, channels, n, f, ch);
    S24IsS32RoundedDown(src.value[ch].value[f]);
    hide Planar, ToS32, ToS24, Fits;
  }

  // ---------- Stereo conversion with a running dither index ----------

  /** The cell of the i-th sample of a channel. */
  function Cell(off: int, incr: int, i: int): int {
    off + i * incr
  }

  predicate CellsInside(off: int, incr: int, n: nat, length: nat) {
    forall i {:trigger Cell(off, incr, i)} :: 0 <= i < n ==> 0 <= Cell(off, incr, i) < length
  }

  /** Where the two channels of the output go: offset and increment each, in one memory. */
  datatype Layout = Layout(loff: int, lincr: int, roff: int, rincr: int)

  predicate Inside(l: Layout, n: nat, length: nat) {
    CellsInside(l.loff, l.lincr, n, length) && CellsInside(l.roff, l.rincr, n, length)
  }

  /** The layout that starts n frames later. */
  function Skip(l: Layout, n: int): Layout {
    Layout(Cell(l.loff, l.lincr, n), l.lincr, Cell(l.roff, l.rincr, n), l.rincr)
  }

  /** The memory and the dither index after n frames. */
  function Stereo(t: Tables, mem: seq<int>, di: nat, lin: seq<real>, rin: seq<real>, l: Layout, n: nat)
    : (r: (seq<int>, nat))
    requires 0 < |t.left| == |t.right| && di < |t.left|
    requires n <= |lin| && n <= |rin| && Inside(l, n, |mem|)
    ensures |r.0| == |mem| && r.1 == Advance(di, n, |t.left|)
  {
    if n == 0 then (mem, di)
    else
      var (m, d) := Stereo(t, mem, di, lin, rin, l, n - 1);
      (m[Cell(l.loff, l.lincr, n - 1) := ToS16(lin[n - 1], t.left[d])]
        [Cell(l.roff, l.rincr, n - 1) := ToS16(rin[n - 1], t.right[d])],
       NextIndex(d, |t.left|))
  }

  method DitherS16(t: Tables, ditherIndex: nat, len: nat, lin: seq<real>, rin: seq<real>, out: array<int>, l: Layout)
    returns (newIndex: nat)
    requires GoodTables(t) && ditherIndex < |t.left|
    requires len <= |lin| && len <= |rin| && Inside(l, len, out.Length)
    modifies out
    ensures (out[..], newIndex) == Stereo(t, old(out[..]), ditherIndex, lin, rin, l, len)
  {
    ghost var before := out[..];
    var di := ditherIndex;
    var i, j, k := 0, l.loff, l.roff;
    while i < len
      invariant 0 <= i <= len
      invariant j == Cell(l.loff, l.lincr, i) && k == Cell(l.roff, l.rincr, i)
      invariant (out[..], di) == Stereo(t, before, ditherIndex, lin, rin, l, i)
    {
      out[j] := ToS16(lin[i], t.left[di]);
      out[k] := ToS16(rin[i], t.right[di]);
      di := if di + 1 >= |t.left| then 0 else di + 1;
      assert Cell(l.loff, l.lincr, i + 1) == j + l.lincr && Cell(l.roff, l.rincr, i + 1) == k + l.rincr;
      i, j, k := i + 1, j + l.lincr, k + l.rincr;
    }
    newIndex := di;
  }

  /** The sample of frame i is in the cell it was written to, unless a later one was written there too;
      it got the dither entry i after the index carried in. */
  lemma {:induction false} StereoWritten(t: Tables, mem: seq<int>, di: nat, lin: seq<real>, rin: seq<real>, l: Layout,
                                         n: nat, i: nat)
    requires GoodTables(t) && di < |t.left| && n <= |lin| && n <= |rin| && Inside(l, n, |mem|) && i < n
    ensures 0 <= l.loff + i * l.lincr < |mem| && 0 <= l.roff + i * l.rincr < |mem|
    ensures (forall j :: i < j < n ==> Cell(l.loff, l.lincr, j) != l.loff + i * l.lincr)
         && (forall j :: i <= j < n ==> Cell(l.roff, l.rincr, j) != l.loff + i * l.lincr)
         ==> Stereo(t, mem, di, lin, rin, l, n).0[l.loff + i * l.lincr] == ToS16(lin[i], t.left[(di + i) % |t.left|])
    ensures (forall j :: i < j < n ==> Cell(l.loff, l.lincr, j) != l.roff + i * l.rincr)
         && (forall j :: i < j < n ==> Cell(l.roff, l.rincr, j) != l.roff + i * l.rincr)
         ==> Stereo(t, mem, di, lin, rin, l, n).0[l.roff + i * l.rincr] == ToS16(rin[i], t.right[(di + i) % |t.left|])
    decreases n
  {
    hide ToS16;
    AdvanceIsModulo(di, i, |t.left|);
    assert Cell(l.loff, l.lincr, i) == l.loff + i * l.lincr && Cell(l.roff, l.rincr, i) == l.roff + i * l.rincr;
    hide Cell, Advance;
    if i < n - 1 {
      StereoWritten(t, mem, di, lin, rin, l, n - 1, i);
    }
  }

  lemma CellSkip(off: int, incr: int, a: int, i: int)
    ensures Cell(Cell(off, incr, a), incr, i) == Cell(off, incr, a + i)
  {
    assert (a + i) * incr == a * incr + i * incr;
  }

  lemma InsideParts(l: Layout, a: nat, b: nat, length: nat)
    requires Inside(l, a + b, length)
    ensures Inside(l, a, length) && Inside(Skip(l, a), b, length)
  {
    forall i | 0 <= i < b
      ensures Cell(Cell(l.loff, l.lincr, a), l.lincr, i) == Cell(l.loff, l.lincr, a + i)
      ensures Cell(Cell(l.roff, l.rincr, a), l.rincr, i) == Cell(l.roff, l.rincr, a + i)
    {
      CellSkip(l.loff, l.lincr, a, i);
      CellSkip(l.roff, l.rincr, a, i);
    }
  }

  /** Converting a + b frames in one call, or a frames and then b frames with the index carried over,
      gives the same samples and the same index. */
  lemma {:induction false} StereoSplits(t: Tables, mem: seq<int>, di: nat, lin: seq<real>, rin: seq<real>, l: Layout,
                                        a: nat, b: nat)
    requires GoodTables(t) && di < |t.left|
    requires a + b <= |lin| && a + b <= |rin| && Inside(l, a + b, |mem|)
    ensures Inside(l, a, |mem|) && Inside(Skip(l, a), b, |mem|)
    ensures var (m, d) := Stereo(t, mem, di, lin, rin, l, a);
            Stereo(t, m, d, lin[a..], rin[a..], Skip(l, a), b) == Stereo(t, mem, di, lin, rin, l, a + b)
    decreases b
  {
    hide ToS16, Cell, Advance, NextIndex;
    InsideParts(l, a, b, |mem|);
    if b != 0 {
      StereoSplits(t, mem, di, lin, rin, l, a, b - 1);
      CellSkip(l.loff, l.lincr, a, b - 1);
      CellSkip(l.roff, l.rincr, a, b - 1);
      assert lin[a..][b - 1] == lin[a + b - 1] && rin[a..][b - 1] == rin[a + b - 1];
    }
  }

  /** With two channels side by side, the planar converter and the stereo converter started at
      dither index 0 produce the same memory. */
  lemma {:induction false} PlanarIsStereo(t: Tables, mem: seq<int>, lin: seq<real>, rin: seq<real>, n: nat)
    requires GoodTables(t) && n <= |lin| && n <= |rin| && Fits(|mem|, 2, 2, n)
    ensures Inside(Layout(0, 2, 1, 2), n, |mem|)
    ensures Planar(mem, SampleS16(t, Some([Some(lin), Some(rin)])), 2, 2, n)
         == Stereo(t, mem, 0, lin, rin, Layout(0, 2, 1, 2), n).0
  {
    if n != 0 {
      PlanarIsStereo(t, mem, lin, rin, n - 1);
      var l := Layout(0, 2, 1, 2);
      var src := Some([Some(lin), Some(rin)]);
      var sample := SampleS16(t, src);
      var before := Planar(mem, sample, 2, 2, n - 1);
      assert Cell(0, 2, n - 1) == FrameStart(n - 1, 2) && Cell(1, 2, n - 1) == FrameStart(n - 1, 2) + 1;
      var row := (ch: nat) => sample(n - 1, ch);
      assert WriteFrame(before, FrameStart(n - 1, 2), row, 2)
          == before[FrameStart(n - 1, 2) := row(0)][FrameStart(n - 1, 2) + 1 := row(1)];
    }
  }

  /** With a table from init_dither no sample between -1 and 1 is ever clipped. */
  lemma DitheredS16NeverClips(random: (nat, nat) -> real, c: nat, i: nat, x: real)
    requires forall k: nat :: 0.0 <= random(c, k) <= 1.0
    requires i < DITHER_SIZE && -1.0 <= x <= 1.0
    ensures var d := Table(Noise(random, c))[i];
            ToS16(x, d) == Round(x * 32766.0 + d) && -1.5 <= ToS16(x, d) as real - x * 32766.0 <= 1.5
  {
    TableEntriesBounded(Noise(random, c), i);
    S16Headroom(x, Table(Noise(random, c))[i]);
  }
}
