/** How the OSS driver chooses a number and a size of fragments, and packs them in a word. */
module Oss {
  import opened Arithmetic

  function Power(n: nat): (r: nat)
    ensures r > 0
  {
    if n == 0 then 1 else 2 * Power(n - 1)
  }

  /** The logarithm to base two, rounded down. */
  function FloorLog(n: nat): nat
    requires n > 0
  {
    if n == 1 then 0 else 1 + FloorLog(n / 2)
  }

  lemma {:induction false} FloorLogIs(n: nat, e: nat)
    requires n > 0
    ensures Power(e) <= n < 2 * Power(e) <==> FloorLog(n) == e
  {
    if e > 0 && n > 1 {
      FloorLogIs(n / 2, e - 1);
    }
  }

  /** Unsigned 32-bit arithmetic. */
  function Wrap(n: int): nat {
    n % 0x1_0000_0000
  }

  /** The larger of two and the whole periods that fit in the queue. */
  function Wanted(queue: nat, period: nat): (r: nat)
    requires period > 0
  {
    if queue / period < 2 then 2 else queue / period
  }

  /** The argument of the call that sets the fragments: the exponent of their size in the lower half, and
      their number, a power of two, in the upper half. A size of zero bytes has the exponent -1. */
  function Packed(bytes: nat, wanted: nat): nat
    requires wanted > 0
  {
    Wrap(Wrap(Power(FloorLog(wanted)) * 0x1_0000) + if bytes == 0 then Wrap(-1) else Wrap(FloorLog(bytes)))
  }

  /** What the device reads from that word. */
  function CountOf(word: nat): nat {
    word / 0x1_0000
  }

  function ExponentOf(word: nat): nat {
    word % 0x1_0000
  }

  /** How often a number can be halved before it is zero. */
  method CountBits(number: nat) returns (power: nat)
    ensures power == if number == 0 then 0 else FloorLog(number) + 1
  {
    var n: nat := number;
    power := 0;
    while 0 < n
      invariant n > 0 ==> power + FloorLog(n) == FloorLog(number)
      invariant n == 0 ==> power == if number == 0 then 0 else FloorLog(number) + 1
    {
      n := n / 2;
      power := power + 1;
    }
  }

  /** The sizes are given in bits, channels and frames; their product has to fit in an int. */
  method SetQueueSize(sampleBits: nat, channels: nat, queue: nat, period: nat) returns (word: nat)
    requires period > 0 && period * channels < 0x8000_0000 && period * channels * sampleBits < 0x8000_0000
    requires queue < 0x8000_0000
    ensures word == Packed(period * channels * sampleBits / 8, Wanted(queue, period))
    ensures word < 0x1_0000_0000
  {
    hide FloorLog, Power;
    var bits: int := CountBits(period * channels * sampleBits / 8);
    var fragSizePower := Wrap(bits - 1);
    var fragments := queue / period;
    if fragments < 2 {
      fragments := 2;
    }
    var fragmentBits := CountBits(fragments);
    var fragmentsPower := fragmentBits - 1;
    fragments := Power(fragmentsPower);
    word := Wrap(Wrap(fragments * 0x1_0000) + fragSizePower);
  }

  /** The size of so many fragments of so many bytes. */
  function QueueBytes(fragments: nat, bytes: nat): nat {
    fragments * bytes
  }

  /** So many fragments of such a size make a power of two again. */
  lemma {:induction false} PowerSum(a: nat, b: nat)
    ensures Power(a + b) == QueueBytes(Power(a), Power(b))
  {
    if a > 0 {
      PowerSum(a - 1, b);
      assert a - 1 + b == a + b - 1;
      assert Power(a) * Power(b) == 2 * (Power(a - 1) * Power(b));
    }
  }

  /** The queue chosen is at most the one wanted and more than a quarter of it. */
  lemma QueueWithinQuarter(bytes: nat, wanted: nat)
    requires bytes > 0 && wanted > 0
    ensures var chosen := QueueBytes(Power(FloorLog(wanted)), Power(FloorLog(bytes)));
            chosen <= QueueBytes(wanted, bytes) < 4 * chosen
  {
    Octave(bytes);
    Octave(wanted);
    hide FloorLog, Power, QueueBytes;
    Quarter(Power(FloorLog(wanted)), wanted, Power(FloorLog(bytes)), bytes);
  }

  lemma Octave(n: nat)
    requires n > 0
    ensures Power(FloorLog(n)) <= n < 2 * Power(FloorLog(n))
  {
    FloorLogIs(n, FloorLog(n));
  }

  lemma Quarter(p: nat, a: nat, q: nat, b: nat)
    requires p <= a < 2 * p && q <= b < 2 * q
    ensures QueueBytes(p, q) <= QueueBytes(a, b) < 4 * QueueBytes(p, q)
  {
    ProductsGrow(p, a, q, b);
    ProductsGrow(a, 2 * p - 1, b, 2 * q - 1);
    assert (2 * p - 1) * (2 * q - 1) == 4 * (p * q) - 2 * p - 2 * q + 1;
  }

  lemma ProductsGrow(a: nat, b: nat, c: nat, d: nat)
    requires a <= b && c <= d
    ensures a * c <= b * d
  {
    assert a * c <= b * c;
    assert b * c <= b * d;
  }

  /** Powers of two order their exponents. */
  lemma {:induction false} PowersOrdered(a: nat, b: nat)
    ensures a <= b <==> Power(a) <= Power(b)
  {
    if a > 0 && b > 0 {
      PowersOrdered(a - 1, b - 1);
    }
  }

  /** A number below 2^31 has a small logarithm. */
  lemma SmallLog(n: nat)
    requires 0 < n < 0x8000_0000
    ensures FloorLog(n) < 31
  {
    FloorLogIs(n, FloorLog(n));
    PowersOfTwo();
    PowersOrdered(31, FloorLog(n));
  }

  lemma PowersOfTwo()
    ensures Power(15) == 0x8000 && Power(16) == 0x1_0000 && Power(31) == 0x8000_0000
  {
    assert Power(5) == 32;
    PowerSum(5, 5);
    PowerSum(10, 5);
    PowerSum(15, 1);
    PowerSum(16, 15);
  }

  /** The count of fragments fits in 16 bits exactly if the one wanted does. */
  lemma CountFits(wanted: nat)
    requires wanted > 0
    ensures wanted < 0x1_0000 <==> Power(FloorLog(wanted)) < 0x1_0000
  {
    FloorLogIs(wanted, FloorLog(wanted));
    PowersOfTwo();
    PowersOrdered(16, FloorLog(wanted));
    PowersOrdered(FloorLog(wanted), 15);
  }

  /** The device reads the count and the exponent chosen exactly if the count fits in 16 bits. */
  lemma PackingDecodes(bytes: nat, wanted: nat)
    requires 0 < bytes < 0x8000_0000 && wanted > 0
    ensures wanted < 0x1_0000 <==>
            && CountOf(Packed(bytes, wanted)) == Power(FloorLog(wanted))
            && ExponentOf(Packed(bytes, wanted)) == FloorLog(bytes)
  {
    CountFits(wanted);
    SmallLog(bytes);
    hide FloorLog, Power;
    UnpackFields(Power(FloorLog(wanted)), FloorLog(bytes));
  }

  lemma UnpackFields(p: nat, e: nat)
    requires e < 0x1_0000
    ensures var word := Wrap(Wrap(p * 0x1_0000) + Wrap(e));
            p < 0x1_0000 <==> CountOf(word) == p && ExponentOf(word) == e
  {
  }

  /** No bytes at all: the exponent -1 turns into 65535 and takes one from the count. */
  lemma EmptyFragments(wanted: nat)
    requires 0 < wanted < 0x1_0000
    ensures CountOf(Packed(0, wanted)) == Power(FloorLog(wanted)) - 1
    ensures ExponentOf(Packed(0, wanted)) == 0xFFFF
  {
    CountFits(wanted);
    hide FloorLog, Power;
  }

  /** What the device reads from the word, for a queue and a period in frames and a fragment of some bytes:
      a queue of at most the bytes asked for and more than a quarter of them, if that is two periods at
      least, and two fragments of at most the size asked for otherwise. */
  lemma QueueRead(bytes: nat, queue: nat, period: nat)
    requires 0 < bytes < 0x8000_0000 && 0 < period && queue / period < 0x1_0000
    ensures var word := Packed(bytes, Wanted(queue, period));
            var size := Power(word % 0x1_0000);
            && size <= bytes < 2 * size
            && (queue / period >= 2 ==>
                  word / 0x1_0000 * size <= queue / period * bytes < 4 * (word / 0x1_0000 * size))
            && (queue / period < 2 ==> word / 0x1_0000 == 2)
  {
    var wanted := Wanted(queue, period);
    assert queue / period >= 2 ==> wanted == queue / period;
    assert queue / period < 2 ==> wanted == 2;
    assert FloorLog(2) == 1 && Power(1) == 2;
    PackingDecodes(bytes, wanted);
    QueueWithinQuarter(bytes, wanted);
    Octave(bytes);
    hide FloorLog, Power, Packed, Wanted;
  }
}
