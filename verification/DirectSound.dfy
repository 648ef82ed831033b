/** The DirectSound loop: how the playback position drives what is written into the ring buffer. */
module DirectSound {
  import opened Arithmetic

  /** Sizes in bytes: of a frame, of one period, and of the whole ring. */
  datatype Config = Config(frameSize: nat, bufferSize: nat, queueSize: nat)

  predicate Multiple(a: nat, m: nat) {
    m > 0 && a % m == 0
  }

  /** Whole frames everywhere, and no more bytes than unsigned 32-bit arithmetic can handle. */
  predicate Valid(c: Config) {
    && 0 < c.frameSize && 0 < c.bufferSize <= c.queueSize < 0x8000_0000
    && Multiple(c.bufferSize, c.frameSize) && Multiple(c.queueSize, c.frameSize)
  }

  /** The sizes the driver sets up. */
  function NewConfig(frameSize: nat, periodSize: nat, periods: nat): Config {
    Config(frameSize, periodSize * frameSize, periods * (periodSize * frameSize))
  }

  /** The settings allow at most 64 periods of 8192 frames; a frame has at most 8 channels of 4 bytes. */
  lemma NewConfigValid(frameSize: nat, periodSize: nat, periods: nat)
    requires 0 < frameSize <= 32 && 0 < periodSize <= 8192 && 0 < periods <= 64
    ensures Valid(NewConfig(frameSize, periodSize, periods))
    ensures NewConfig(frameSize, periodSize, periods).bufferSize == periodSize * frameSize
    ensures NewConfig(frameSize, periodSize, periods).queueSize == periods * (periodSize * frameSize)
  {
    var buffer := periodSize * frameSize;
    ProductBound(periodSize, frameSize, 8192, 32);
    ProductBound(periods, buffer, 64, 8192 * 32);
    LargeMultiple(periods, buffer);
    DivModUnique(buffer, periodSize, 0, frameSize);
    assert periods * buffer == (periods * periodSize) * frameSize;
    DivModUnique(periods * buffer, periods * periodSize, 0, frameSize);
  }

  lemma ProductBound(a: nat, b: nat, x: nat, y: nat)
    requires 0 < a <= x && 0 < b <= y
    ensures 0 < a * b <= x * y
  {
    assert a * b <= x * b;
    assert x * b <= x * y;
    LargeMultiple(a, b);
  }

  /** What GetCurrentPosition reports. */
  datatype Poll = Poll(play: nat, write: nat)

  /** The positions GetCurrentPosition may report. */
  predicate InRing(c: Config, p: Poll) {
    p.play < c.queueSize && p.write < c.queueSize
  }

  function Wrap(n: int): nat {
    n % 0x1_0000_0000
  }

  /** The bytes the loop decides to fill, in unsigned 32-bit arithmetic. */
  function Fillable(c: Config, cur: nat, p: Poll): nat {
    if cur <= p.play then Wrap(p.play - cur)
    else if p.play < cur && p.write <= cur then Wrap(Wrap(c.queueSize + p.play) - cur)
    else 0
  }

  /** The assumed contract of Lock: the range is split at the end of the buffer. */
  function FirstPart(c: Config, cur: nat, bytes: nat): (r: nat)
    ensures r <= bytes
  {
    if cur + bytes <= c.queueSize then bytes else if cur <= c.queueSize then c.queueSize - cur else 0
  }

  function Frames(c: Config, bytes: nat): nat
    requires c.frameSize > 0
  {
    bytes / c.frameSize
  }

  function FrameBytes(c: Config, n: nat): nat {
    n * c.frameSize
  }

  /** A position rounded down to a frame. */
  function Aligned(c: Config, pos: nat): (r: nat)
    requires c.frameSize > 0
    ensures r <= pos
  {
    pos - pos % c.frameSize
  }

  /** The frames one pass of the loop renders, and the write position after it. */
  function Pass(c: Config, cur: nat, p: Poll): (nat, nat)
    requires c.frameSize > 0
  {
    var bytes := Fillable(c, cur, p);
    if bytes < c.bufferSize then (0, cur)
    else
      var bytes1 := FirstPart(c, cur, bytes);
      var f1, f2 := Frames(c, bytes1), Frames(c, bytes - bytes1);
      var next := Wrap(Wrap(cur + FrameBytes(c, f1)) + FrameBytes(c, f2));
      (f1 + f2, if next >= c.queueSize then next - c.queueSize else next)
  }

  /** The write position is a frame boundary inside the ring. */
  predicate OnFrame(c: Config, cur: nat) {
    cur < c.queueSize && Multiple(cur, c.frameSize)
  }

  // ---------- Whole frames ----------

  /** Cutting a distance from a frame boundary into frames reaches the last boundary before its end. */
  lemma FramesBetween(c: Config, a: nat, b: nat)
    requires Multiple(a, c.frameSize) && a <= b
    ensures a + FrameBytes(c, Frames(c, b - a)) == Aligned(c, b)
  {
    var m := c.frameSize;
    var q, r := (b - a) / m, (b - a) % m;
    assert b - a == q * m + r;
    assert a == a / m * m;
    assert b == (a / m + q) * m + r;
    DivModUnique(b, a / m + q, r, m);
  }

  lemma AlignedMultiple(c: Config, pos: nat)
    requires c.frameSize > 0
    ensures Multiple(Aligned(c, pos), c.frameSize)
    ensures Multiple(pos, c.frameSize) ==> Aligned(c, pos) == pos
  {
    DivModUnique(pos - pos % c.frameSize, pos / c.frameSize, 0, c.frameSize);
  }

  lemma ZeroMultiple(m: nat)
    requires m > 0
    ensures Multiple(0, m)
  {
    DivModUnique(0, 0, 0, m);
  }

  lemma NextMultiple(a: nat, m: nat)
    requires Multiple(a, m)
    ensures Multiple(a + m, m)
  {
    assert a == a / m * m;
    DivModUnique(a + m, a / m + 1, 0, m);
  }

  /** Between two frame boundaries there is room for a frame. */
  lemma RoomForFrame(a: nat, b: nat, m: nat)
    requires Multiple(a, m) && Multiple(b, m) && a < b
    ensures a + m <= b
  {
    assert a == a / m * m && b == b / m * m;
    var k := b / m - a / m;
    assert b - a == k * m;
    PositiveFactor(k, m);
    LargeMultiple(k, m);
  }

  lemma PositiveFactor(k: int, m: nat)
    requires k * m > 0
    ensures k > 0
  {
    if k < 0 {
      LargeMultiple(-k, m);
    }
  }

  lemma SomeFrames(c: Config, bytes: nat)
    requires 0 < c.frameSize <= bytes
    ensures Frames(c, bytes) > 0
  {
    var q := bytes / c.frameSize;
    assert bytes == q * c.frameSize + bytes % c.frameSize;
    assert q * c.frameSize > 0;
  }

  lemma FrameBytesStep(c: Config, f: nat, n: nat)
    ensures FrameBytes(c, 0) == 0
    ensures FrameBytes(c, f + 1) == FrameBytes(c, f) + c.frameSize
    ensures f < n ==> FrameBytes(c, f) + c.frameSize <= FrameBytes(c, n)
  {
    assert (f + 1) * c.frameSize == f * c.frameSize + c.frameSize;
    if f < n {
      LargeMultiple(n - f, c.frameSize);
      assert (n - f) * c.frameSize == n * c.frameSize - f * c.frameSize;
    }
  }

  lemma WrapSmall(n: int)
    requires 0 <= n < 0x1_0000_0000
    ensures Wrap(n) == n
  {
  }

  // ---------- One pass ----------

  lemma PassIdle(c: Config, cur: nat, p: Poll)
    requires c.frameSize > 0 && Fillable(c, cur, p) < c.bufferSize
    ensures Pass(c, cur, p) == (0, cur)
  {
  }

  /** If the play position is not behind the write position of the loop, there is no second part. */
  lemma PassAhead(c: Config, cur: nat, p: Poll)
    requires Valid(c) && OnFrame(c, cur) && InRing(c, p)
    requires cur <= p.play && Fillable(c, cur, p) >= c.bufferSize
    ensures Fillable(c, cur, p) == FirstPart(c, cur, Fillable(c, cur, p)) == p.play - cur
    ensures cur + FrameBytes(c, Frames(c, p.play - cur)) == Aligned(c, p.play)
    ensures Pass(c, cur, p) == (Frames(c, p.play - cur), Aligned(c, p.play))
  {
    FramesBetween(c, cur, p.play);
    NoFrames(c);
    hide Frames, FrameBytes, Aligned, Multiple, Wrap;
    WrapSmall(p.play - cur);
    WrapSmall(Aligned(c, p.play));
  }

  lemma NoFrames(c: Config)
    requires c.frameSize > 0
    ensures Frames(c, 0) == 0 && FrameBytes(c, 0) == 0
  {
    DivModUnique(0, 0, 0, c.frameSize);
  }

  /** Otherwise the first part ends with the buffer, and the second starts at its beginning. */
  lemma PassWraps(c: Config, cur: nat, p: Poll)
    requires Valid(c) && OnFrame(c, cur) && InRing(c, p)
    requires p.play < cur && Fillable(c, cur, p) >= c.bufferSize
    ensures Fillable(c, cur, p) == c.queueSize + p.play - cur
    ensures FirstPart(c, cur, Fillable(c, cur, p)) == c.queueSize - cur
    ensures cur + FrameBytes(c, Frames(c, c.queueSize - cur)) == c.queueSize
    ensures FrameBytes(c, Frames(c, p.play)) == Aligned(c, p.play)
    ensures Pass(c, cur, p) == (Frames(c, c.queueSize - cur) + Frames(c, p.play), Aligned(c, p.play))
  {
    FramesBetween(c, cur, c.queueSize);
    AlignedMultiple(c, c.queueSize);
    ZeroMultiple(c.frameSize);
    FramesBetween(c, 0, p.play);
    hide Frames, FrameBytes, Aligned, Multiple, Wrap;
    WrapSmall(c.queueSize + p.play);
    WrapSmall(c.queueSize + p.play - cur);
    WrapSmall(c.queueSize);
    WrapSmall(c.queueSize + Aligned(c, p.play));
  }

  /** Under the assumed contract of the play position, a pass either leaves the write position alone
      or moves it to the play position rounded down to a frame; it stays on a frame in the ring. */
  lemma PassFollowsPlay(c: Config, cur: nat, p: Poll)
    requires Valid(c) && OnFrame(c, cur) && p.play < c.queueSize && p.write < c.queueSize
    ensures OnFrame(c, Pass(c, cur, p).1)
    ensures if Fillable(c, cur, p) < c.bufferSize then Pass(c, cur, p) == (0, cur)
            else Pass(c, cur, p).1 == Aligned(c, p.play) && Pass(c, cur, p).0 > 0
  {
    hide Pass, Fillable, Multiple, Frames, Aligned;
    if Fillable(c, cur, p) < c.bufferSize {
      PassIdle(c, cur, p);
    } else {
      AlignedMultiple(c, p.play);
      if cur <= p.play {
        PassAhead(c, cur, p);
        ZeroMultiple(c.frameSize);
        RoomForFrame(0, c.bufferSize, c.frameSize);
        SomeFrames(c, p.play - cur);
      } else {
        PassWraps(c, cur, p);
        RoomForFrame(cur, c.queueSize, c.frameSize);
        SomeFrames(c, c.queueSize - cur);
      }
    }
  }

  /** A pass renders exactly if the free part of the ring, from the write position to the play position,
      holds a period, and, if that part wraps around, the device's own write position is not ahead. */
  lemma PassRendersWhen(c: Config, cur: nat, p: Poll)
    requires Valid(c) && OnFrame(c, cur) && p.play < c.queueSize && p.write < c.queueSize
    ensures Pass(c, cur, p).0 > 0 <==>
            if cur <= p.play then p.play - cur >= c.bufferSize
            else p.write <= cur && c.queueSize - cur + p.play >= c.bufferSize
  {
    PassFollowsPlay(c, cur, p);
    if cur <= p.play {
      WrapSmall(p.play - cur);
    } else {
      WrapSmall(c.queueSize + p.play);
      WrapSmall(c.queueSize + p.play - cur);
    }
    hide Pass, Wrap, Multiple, Aligned;
  }

  /** The frames rendered over the passes of several polls, and the write position after them. */
  function Passes(c: Config, polls: seq<Poll>): (nat, nat)
    requires c.frameSize > 0
  {
    if polls == [] then (0, 0)
    else
      var (total, cur) := Passes(c, polls[..|polls| - 1]);
      var (frames, next) := Pass(c, cur, polls[|polls| - 1]);
      (total + frames, next)
  }

  lemma PassesStep(c: Config, polls: seq<Poll>, i: nat)
    requires c.frameSize > 0 && i < |polls|
    ensures Passes(c, polls[..0]) == (0, 0)
    ensures Passes(c, polls[..i + 1]) == (Passes(c, polls[..i]).0 + Pass(c, Passes(c, polls[..i]).1, polls[i]).0,
                                          Pass(c, Passes(c, polls[..i]).1, polls[i]).1)
  {
    assert polls[..i + 1][..i] == polls[..i];
  }

  // ---------- The frames in the ring ----------

  /** Where the k-th frame rendered goes: one frame after the other, back to the start at the end. */
  function Place(c: Config, k: nat): nat {
    if k == 0 then 0
    else
      var next := Place(c, k - 1) + c.frameSize;
      if next >= c.queueSize then 0 else next
  }

  lemma {:induction false} PlaceOnFrame(c: Config, k: nat)
    requires Valid(c)
    ensures OnFrame(c, Place(c, k)) && Place(c, k) + c.frameSize <= c.queueSize
  {
    hide Multiple;
    if k == 0 {
      ZeroMultiple(c.frameSize);
    } else {
      PlaceOnFrame(c, k - 1);
      ZeroMultiple(c.frameSize);
      NextMultiple(Place(c, k - 1), c.frameSize);
    }
    RoomForFrame(Place(c, k), c.queueSize, c.frameSize);
  }

  /** One frame further, as a multiple of the ring size and a rest. */
  lemma NextPlace(x: nat, m: nat, q: nat)
    requires 0 < q && x % q + m <= q
    ensures (x + m) % q == if x % q + m >= q then 0 else x % q + m
  {
    var d, r := x / q, x % q;
    assert x == d * q + r;
    if r + m == q {
      assert x + m == (d + 1) * q + 0;
      DivModUnique(x + m, d + 1, 0, q);
    } else {
      DivModUnique(x + m, d, r + m, q);
    }
  }

  /** That is byte k * frameSize, modulo the size of the ring. */
  lemma {:induction false} PlaceIsModulo(c: Config, k: nat)
    requires Valid(c)
    ensures Place(c, k) == k * c.frameSize % c.queueSize
  {
    if k == 0 {
      DivModUnique(0, 0, 0, c.queueSize);
    } else {
      PlaceIsModulo(c, k - 1);
      PlaceOnFrame(c, k - 1);
      NextPlace((k - 1) * c.frameSize, c.frameSize, c.queueSize);
      assert k * c.frameSize == (k - 1) * c.frameSize + c.frameSize;
    }
  }

  /** The ring after the first n frames of a stream of frames were written to their places. */
  function Rendered(c: Config, ring: seq<int>, stream: (nat, nat) -> int, n: nat): (r: seq<int>)
    ensures |r| == |ring|
  {
    if n == 0 then ring
    else
      var r, at := Rendered(c, ring, stream, n - 1), Place(c, n - 1);
      seq(|r|, i requires 0 <= i < |r| =>
        if at <= i < at + c.frameSize then stream(n - 1, i - at) else r[i])
  }

  method WriteFrame(c: Config, ring: array<int>, pos: nat, stream: (nat, nat) -> int, k: nat, ghost before: seq<int>)
    requires ring.Length == c.queueSize && pos + c.frameSize <= c.queueSize && pos == Place(c, k)
    requires ring[..] == Rendered(c, before, stream, k)
    modifies ring
    ensures ring[..] == Rendered(c, before, stream, k + 1)
  {
    ghost var row := ring[..];
    var b := 0;
    while b < c.frameSize
      invariant 0 <= b <= c.frameSize
      invariant forall i :: 0 <= i < ring.Length ==>
                  ring[i] == if pos <= i < pos + b then stream(k, i - pos) else row[i]
    {
      ring[pos + b] := stream(k, b);
      b := b + 1;
    }
  }

  /** The write function: frames one after the other from a position of the ring. */
  method WriteFrames(c: Config, ring: array<int>, at: nat, count: nat, stream: (nat, nat) -> int, first: nat,
                     ghost before: seq<int>)
    requires c.frameSize > 0 && ring.Length == c.queueSize && at + FrameBytes(c, count) <= c.queueSize
    requires count > 0 ==> at == Place(c, first)
    requires ring[..] == Rendered(c, before, stream, first)
    modifies ring
    ensures ring[..] == Rendered(c, before, stream, first + count)
    ensures count > 0 ==>
      Place(c, first + count) == if at + FrameBytes(c, count) >= c.queueSize then 0 else at + FrameBytes(c, count)
  {
    hide Rendered, FrameBytes;
    FrameBytesStep(c, 0, 0);
    var f := 0;
    var pos := at;
    while f < count
      invariant 0 <= f <= count
      invariant pos == at + FrameBytes(c, f)
      invariant ring[..] == Rendered(c, before, stream, first + f)
      invariant f == 0 < count ==> Place(c, first) == at
      invariant f > 0 ==> Place(c, first + f) == if pos >= c.queueSize then 0 else pos
    {
      FrameBytesStep(c, f, count);
      assert pos < c.queueSize;
      WriteFrame(c, ring, pos, stream, first + f, before);
      pos := pos + c.frameSize;
      f := f + 1;
    }
  }

  /** Filling one part of a locked range moves the write position over whole frames. */
  method FillPart(c: Config, ring: array<int>, at: nat, bytes: nat, stream: (nat, nat) -> int, cur: nat, total: nat,
                  ghost before: seq<int>)
    returns (cur': nat, total': nat)
    requires c.frameSize > 0 && ring.Length == c.queueSize
    requires at + FrameBytes(c, Frames(c, bytes)) <= c.queueSize
    requires cur + FrameBytes(c, Frames(c, bytes)) < 0x1_0000_0000
    requires Frames(c, bytes) > 0 ==> at == Place(c, total)
    requires ring[..] == Rendered(c, before, stream, total)
    modifies ring
    ensures total' == total + Frames(c, bytes) && cur' == cur + FrameBytes(c, Frames(c, bytes))
    ensures ring[..] == Rendered(c, before, stream, total')
    ensures Frames(c, bytes) > 0 ==>
      var next := at + FrameBytes(c, Frames(c, bytes)); Place(c, total') == if next >= c.queueSize then 0 else next
  {
    hide Frames, FrameBytes, Place, Rendered, Wrap;
    var frames := Frames(c, bytes);
    WriteFrames(c, ring, at, frames, stream, total, before);
    WrapSmall(cur + FrameBytes(c, frames));
    cur', total' := Wrap(cur + FrameBytes(c, frames)), total + frames;
  }

  /** What a pass does when it fills: the two parts, and the frames and positions each ends with. */
  lemma PassParts(c: Config, cur: nat, p: Poll)
    requires Valid(c) && OnFrame(c, cur) && InRing(c, p) && Fillable(c, cur, p) >= c.bufferSize
    ensures var bytes := Fillable(c, cur, p);
            var bytes1 := FirstPart(c, cur, bytes);
            var f1, f2 := Frames(c, bytes1), Frames(c, bytes - bytes1);
            && bytes1 > 0 && f1 > 0
            && cur + FrameBytes(c, f1) <= c.queueSize
            && FrameBytes(c, f2) < c.queueSize
            && (bytes1 < bytes ==> cur + FrameBytes(c, f1) == c.queueSize)
            && (bytes1 == bytes ==> f2 == 0 && FrameBytes(c, f2) == 0)
            && (f2 == 0 ==> FrameBytes(c, f2) == 0)
            && Pass(c, cur, p) == (f1 + f2,
                 if cur + FrameBytes(c, f1) + FrameBytes(c, f2) >= c.queueSize
                 then cur + FrameBytes(c, f1) + FrameBytes(c, f2) - c.queueSize
                 else cur + FrameBytes(c, f1) + FrameBytes(c, f2))
  {
    NoFrames(c);
    PassFollowsPlay(c, cur, p);
    hide Fillable, FirstPart, Pass, Frames, FrameBytes, Multiple, Wrap;
    if cur <= p.play {
      PassAhead(c, cur, p);
    } else {
      PassWraps(c, cur, p);
    }
  }

  /** What is between Lock and Unlock, and bringing the write position back into the ring. */
  method Fill(c: Config, ring: array<int>, p: Poll, stream: (nat, nat) -> int, cur: nat, total: nat,
              ghost before: seq<int>)
    returns (cur': nat, total': nat)
    requires Valid(c) && ring.Length == c.queueSize && InRing(c, p) && Fillable(c, cur, p) >= c.bufferSize
    requires cur == Place(c, total) && OnFrame(c, cur)
    requires ring[..] == Rendered(c, before, stream, total)
    modifies ring
    ensures total <= total' && (total' - total, cur') == Pass(c, cur, p)
    ensures ring[..] == Rendered(c, before, stream, total')
    ensures cur' == Place(c, total')
  {
    PassParts(c, cur, p);
    var bytes := Fillable(c, cur, p);
    var bytes1 := FirstPart(c, cur, bytes);
    var bytes2 := bytes - bytes1;
    hide Fillable, FirstPart, Rendered, Pass, Frames, FrameBytes, OnFrame, Place, InRing;
    cur', total' := cur, total;
    if bytes1 > 0 {
      cur', total' := FillPart(c, ring, cur, bytes1, stream, cur', total', before);
    }
    if bytes2 > 0 {
      cur', total' := FillPart(c, ring, 0, bytes2, stream, cur', total', before);
    }
    if cur' >= c.queueSize {
      cur' := cur' - c.queueSize;
    }
  }

  method OnePass(c: Config, ring: array<int>, p: Poll, stream: (nat, nat) -> int, cur: nat, total: nat,
                 ghost before: seq<int>)
    returns (cur': nat, total': nat)
    requires Valid(c) && ring.Length == c.queueSize && InRing(c, p)
    requires cur == Place(c, total) && OnFrame(c, cur)
    requires ring[..] == Rendered(c, before, stream, total)
    modifies ring
    ensures total <= total' && (total' - total, cur') == Pass(c, cur, p)
    ensures ring[..] == Rendered(c, before, stream, total')
    ensures cur' == Place(c, total') && OnFrame(c, cur')
  {
    hide Place, Rendered, Multiple, Frames, FrameBytes;
    PassFollowsPlay(c, cur, p);
    if Fillable(c, cur, p) >= c.bufferSize {
      cur', total' := Fill(c, ring, p, stream, cur, total, before);
    } else {
      cur', total' := cur, total;
    }
  }

  /** The loop, for any number of polls before it is told to quit. Whatever the positions polled, the
      frames of the stream were written to their places one after the other. */
  method AudioRun(c: Config, ring: array<int>, polls: seq<Poll>, stream: (nat, nat) -> int)
    returns (cur: nat, total: nat)
    requires Valid(c) && ring.Length == c.queueSize
    requires forall i :: 0 <= i < |polls| ==> polls[i].play < c.queueSize && polls[i].write < c.queueSize
    modifies ring
    ensures (total, cur) == Passes(c, polls)
    ensures ring[..] == Rendered(c, old(ring[..]), stream, total)
    ensures cur == Place(c, total) && OnFrame(c, cur)
  {
    hide Multiple, Rendered, Pass;
    ghost var before := ring[..];
    cur, total := 0, 0;
    PlaceOnFrame(c, 0);
    RenderedNothing(c, before, stream);
    var i := 0;
    while i < |polls|
      invariant 0 <= i <= |polls|
      invariant (total, cur) == Passes(c, polls[..i])
      invariant ring[..] == Rendered(c, before, stream, total)
      invariant cur == Place(c, total) && OnFrame(c, cur)
    {
      PassesStep(c, polls, i);
      cur, total := OnePass(c, ring, polls[i], stream, cur, total, before);
      i := i + 1;
    }
    assert polls[..i] == polls;
  }

  lemma RenderedNothing(c: Config, ring: seq<int>, stream: (nat, nat) -> int)
    ensures Rendered(c, ring, stream, 0) == ring
  {
  }

  /** As many frames as the ring holds have different places. */
  lemma PlacesDiffer(c: Config, k: nat, j: nat)
    requires Valid(c) && k < j < k + c.queueSize / c.frameSize
    ensures Place(c, j) != Place(c, k)
  {
    PlaceIsModulo(c, k);
    PlaceIsModulo(c, j);
    WithinRing(j - k, c.frameSize, c.queueSize);
    assert j * c.frameSize - k * c.frameSize == (j - k) * c.frameSize;
    hide Place, Multiple;
    DistinctModulo(k * c.frameSize, j * c.frameSize, c.queueSize);
  }

  lemma WithinRing(d: nat, m: nat, q: nat)
    requires m > 0 && 0 < d < q / m
    ensures 0 < d * m < q
  {
    LargeMultiple(d, m);
    LargeMultiple(q / m - d, m);
    assert (q / m - d) * m == q / m * m - d * m;
  }

  lemma DistinctModulo(x: nat, y: nat, q: nat)
    requires x < y < x + q
    ensures x % q != y % q
  {
    var r := x % q;
    if r + (y - x) < q {
      DivModUnique(y, x / q, r + (y - x), q);
    } else {
      assert (x / q + 1) * q == x / q * q + q;
      DivModUnique(y, x / q + 1, r + (y - x) - q, q);
    }
  }

  /** Byte b of frame k is found k * frameSize + b bytes into the ring, counted modulo its size, until
      the ring has been filled once more. */
  lemma {:induction false} FrameStays(c: Config, ring: seq<int>, stream: (nat, nat) -> int, k: nat, n: nat, b: nat)
    requires Valid(c) && |ring| == c.queueSize && b < c.frameSize
    requires k < n <= k + c.queueSize / c.frameSize
    ensures k * c.frameSize % c.queueSize + b < c.queueSize
    ensures Rendered(c, ring, stream, n)[k * c.frameSize % c.queueSize + b] == stream(k, b)
    decreases n
  {
    PlaceIsModulo(c, k);
    PlaceOnFrame(c, k);
    if k < n - 1 {
      FrameStays(c, ring, stream, k, n - 1, b);
      PlaceOnFrame(c, n - 1);
      PlacesDiffer(c, k, n - 1);
      var x, y := Place(c, k), Place(c, n - 1);
      if x < y {
        RoomForFrame(x, y, c.frameSize);
      } else {
        RoomForFrame(y, x, c.frameSize);
      }
    }
  }
}
