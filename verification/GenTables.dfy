/** Tables generated at compile time, and the one for cubic interpolation. */
module GenTables {
  import opened Arithmetic

  function Chunk10(n: int): bool {
    n >= 0 && n % 10 == 0
  }

  /** The recursive template: n and everything after it are collected until n is zero, ten at a time
      from a multiple of ten on. */
  function Impl<T>(value: int -> T, multiple: bool, n: nat, rest: seq<int>): seq<T>
    requires multiple == Chunk10(n)
    decreases n
  {
    if multiple && n == 0 then
      [value(0)] + Values(value, rest)
    else if multiple then
      Impl(value, Chunk10(n - 10), n - 10, [n - 9, n - 8, n - 7, n - 6, n - 5, n - 4, n - 3, n - 2, n - 1, n] + rest)
    else
      Impl(value, Chunk10(n - 1), n - 1, [n] + rest)
  }

  function Values<T>(value: int -> T, args: seq<int>): seq<T> {
    seq(|args|, i requires 0 <= i < |args| => value(args[i]))
  }

  function ConstExprArr<T>(value: int -> T, size: nat): seq<T>
    requires size > 0
  {
    Impl(value, Chunk10(size - 1), size - 1, [])
  }

  /** How many templates are instantiated in each other. */
  function Depth(multiple: bool, n: nat): nat
    requires multiple == Chunk10(n)
    decreases n
  {
    if multiple && n == 0 then 1
    else if multiple then 1 + Depth(Chunk10(n - 10), n - 10)
    else 1 + Depth(Chunk10(n - 1), n - 1)
  }

  /** The values collected are those of n + 1, n + 2 and so on, and stay in that place. */
  lemma {:induction false} ImplTabulates<T>(value: int -> T, multiple: bool, n: nat, rest: seq<int>)
    requires multiple == Chunk10(n)
    requires forall i :: 0 <= i < |rest| ==> rest[i] == n + 1 + i
    ensures |Impl(value, multiple, n, rest)| == n + 1 + |rest|
    ensures forall i :: 0 <= i <= n + |rest| ==> Impl(value, multiple, n, rest)[i] == value(i)
    decreases n
  {
    if multiple && n > 0 {
      ImplTabulates(value, Chunk10(n - 10), n - 10,
                    [n - 9, n - 8, n - 7, n - 6, n - 5, n - 4, n - 3, n - 2, n - 1, n] + rest);
    } else if !multiple {
      ImplTabulates(value, Chunk10(n - 1), n - 1, [n] + rest);
    }
  }

  lemma TableTabulates<T>(value: int -> T, size: nat)
    requires size > 0
    ensures ConstExprArr(value, size) == seq(size, (i: nat) => value(i))
  {
    ImplTabulates(value, Chunk10(size - 1), size - 1, []);
  }

  lemma {:induction false} DepthIs(multiple: bool, n: nat)
    requires multiple == Chunk10(n)
    ensures Depth(multiple, n) == n % 10 + n / 10 + 1
    decreases n
  {
    if multiple && n > 0 {
      DepthIs(Chunk10(n - 10), n - 10);
      assert n - 10 == (n / 10 - 1) * 10;
    } else if !multiple {
      DepthIs(Chunk10(n - 1), n - 1);
      DivModUnique(n - 1, n / 10, n % 10 - 1, 10);
    }
  }

  /** A compiler that stops at 500 nested templates can build every table of up to 4919 values, and not
      the one of 4920. */
  lemma DepthLimit(size: nat)
    requires size > 0
    ensures size <= 4919 ==> Depth(Chunk10(size - 1), size - 1) <= 500
    ensures size == 4920 ==> Depth(Chunk10(size - 1), size - 1) == 501
  {
    DepthIs(Chunk10(size - 1), size - 1);
    hide Depth, Chunk10;
    var q, r := (size - 1) / 10, (size - 1) % 10;
    assert size - 1 == 10 * q + r;
  }

  // ---------- Cubic interpolation ----------

  const INTERP_MAX: nat := 256
  const CUBIC_ORDER: nat := 4

  /** Where between two samples a row of the table is. */
  function Position(row: int): real {
    row as real / INTERP_MAX as real
  }

  /** The weight at x of one of four samples, at -1, 0, 1 and 2. */
  function Weight(x: real, k: int): real {
    if k == 0 then x * (-0.5 + x * (1.0 - 0.5 * x))
    else if k == 1 then 1.0 + x * x * (1.5 * x - 2.5)
    else if k == 2 then x * (0.5 + x * (2.0 - 1.5 * x))
    else 0.5 * x * x * (x - 1.0)
  }

  function CubicCalc(i: int): real {
    Weight(Position(i / CUBIC_ORDER), i % CUBIC_ORDER)
  }

  function CubicTable(): seq<real> {
    ConstExprArr(CubicCalc, INTERP_MAX * CUBIC_ORDER)
  }

  /** Tap k of a row is entry 4 * row + k of the table. */
  lemma TableHoldsTaps(row: nat, k: nat)
    requires row < INTERP_MAX && k < CUBIC_ORDER
    ensures |CubicTable()| == INTERP_MAX * CUBIC_ORDER
    ensures CubicTable()[CUBIC_ORDER * row + k] == Weight(Position(row), k)
  {
    hide Weight, Position;
    TableTabulates(CubicCalc, INTERP_MAX * CUBIC_ORDER);
    assert (CUBIC_ORDER * row + k) / CUBIC_ORDER == row && (CUBIC_ORDER * row + k) % CUBIC_ORDER == k;
    assert CubicCalc(CUBIC_ORDER * row + k) == Weight(Position(row), k);
  }

  /** The sum of four samples, each with its weight. */
  function Blend(w0: real, w1: real, w2: real, w3: real, s: int -> real): real {
    w0 * s(-1) + w1 * s(0) + w2 * s(1) + w3 * s(2)
  }

  /** A value between the second and the third of four samples. */
  function Interpolate(row: nat, s: int -> real): real
    requires row < INTERP_MAX && |CubicTable()| == INTERP_MAX * CUBIC_ORDER
  {
    var t := CubicTable();
    var at := CUBIC_ORDER * row;
    Blend(t[at], t[at + 1], t[at + 2], t[at + 3], s)
  }

  lemma InterpolateIsWeights(row: nat, s: int -> real)
    requires row < INTERP_MAX
    ensures |CubicTable()| == INTERP_MAX * CUBIC_ORDER
    ensures var x := Position(row);
            Interpolate(row, s) == Blend(Weight(x, 0), Weight(x, 1), Weight(x, 2), Weight(x, 3), s)
  {
    hide Weight, Position, CubicTable, Blend;
    TableHoldsTaps(row, 0);
    TableHoldsTaps(row, 1);
    TableHoldsTaps(row, 2);
    TableHoldsTaps(row, 3);
  }

  /** A polynomial by its coefficients, the constant first. */
  datatype Cubic = Cubic(a: real, b: real, c: real, d: real)

  function Value(p: Cubic, u: real): real {
    p.a + p.b * u + p.c * (u * u) + p.d * (u * (u * u))
  }

  /** Its samples. */
  function Samples(p: Cubic): int -> real {
    i => Value(p, i as real)
  }

  /** What vanishes at the samples and halfway between them. */
  function Excess(x: real): real {
    x * (1.0 - x) * (1.0 - 2.0 * x)
  }

  lemma Expanded(x: real)
    ensures Weight(x, 0) == -0.5 * x + x * x - 0.5 * (x * (x * x))
    ensures Weight(x, 1) == 1.0 + 1.5 * (x * (x * x)) - 2.5 * (x * x)
    ensures Weight(x, 2) == 0.5 * x + 2.0 * (x * x) - 1.5 * (x * (x * x))
    ensures Weight(x, 3) == 0.5 * (x * (x * x)) - 0.5 * (x * x)
    ensures Excess(x) == x - 3.0 * (x * x) + 2.0 * (x * (x * x))
  {
  }

  /** Sums of the weights with powers of the sample positions. */
  lemma Moments(x: real)
    ensures Weight(x, 0) + Weight(x, 1) + Weight(x, 2) + Weight(x, 3) == 1.0
    ensures -Weight(x, 0) + Weight(x, 2) + 2.0 * Weight(x, 3) == x
    ensures Weight(x, 0) + Weight(x, 2) + 4.0 * Weight(x, 3) == x * x
    ensures -Weight(x, 0) + Weight(x, 2) + 8.0 * Weight(x, 3) == x * (x * x) + Excess(x)
  {
    Expanded(x);
    hide Weight, Excess;
  }

  /** Row r of the table: the four taps whose sums with the powers of the sample positions -1, 0, 1 and 2
      are those of x = r / 256, but for the third power. */
  lemma RowSums(row: nat)
    requires row < 256
    ensures |CubicTable()| == 1024
    ensures var t0, t1, t2, t3 := CubicTable()[4 * row], CubicTable()[4 * row + 1],
                                  CubicTable()[4 * row + 2], CubicTable()[4 * row + 3];
            var x := row as real / 256.0;
            && t0 + t1 + t2 + t3 == 1.0
            && -t0 + t2 + 2.0 * t3 == x
            && t0 + t2 + 4.0 * t3 == x * x
            && -t0 + t2 + 8.0 * t3 == x * (x * x) + x * (1.0 - x) * (1.0 - 2.0 * x)
  {
    TableHoldsTaps(row, 0);
    TableHoldsTaps(row, 1);
    TableHoldsTaps(row, 2);
    TableHoldsTaps(row, 3);
    Moments(row as real / 256.0);
    hide CubicTable, Weight;
  }

  lemma Distributed(f: real, w0: real, w1: real, w2: real, w3: real)
    ensures w0 * f + w1 * f + w2 * f + w3 * f == f * (w0 + w1 + w2 + w3)
  {
  }

  /** Weighing the samples of a polynomial is weighing powers. */
  lemma ByCoefficient(p: Cubic, w0: real, w1: real, w2: real, w3: real)
    ensures Blend(w0, w1, w2, w3, Samples(p))
            == p.a * (w0 + w1 + w2 + w3) + p.b * (-w0 + w2 + 2.0 * w3)
             + p.c * (w0 + w2 + 4.0 * w3) + p.d * (-w0 + w2 + 8.0 * w3)
  {
    assert Value(p, -1.0) == p.a - p.b + p.c - p.d;
    assert Value(p, 0.0) == p.a;
    assert Value(p, 1.0) == p.a + p.b + p.c + p.d;
    assert Value(p, 2.0) == p.a + 2.0 * p.b + 4.0 * p.c + 8.0 * p.d;
    hide Value;
    Distributed(p.a, w0, w1, w2, w3);
    Distributed(p.b, -w0, 0.0, w2, 2.0 * w3);
    Distributed(p.c, w0, 0.0, w2, 4.0 * w3);
    Distributed(p.d, -w0, 0.0, w2, 8.0 * w3);
  }

  /** Weights with the right sums weigh the samples to the value, but for the cubic part. */
  lemma Weighed(p: Cubic, w0: real, w1: real, w2: real, w3: real, x: real, e: real)
    requires w0 + w1 + w2 + w3 == 1.0 && -w0 + w2 + 2.0 * w3 == x
    requires w0 + w2 + 4.0 * w3 == x * x && -w0 + w2 + 8.0 * w3 == x * (x * x) + e
    ensures Blend(w0, w1, w2, w3, Samples(p)) == Value(p, x) + p.d * e
  {
    ByCoefficient(p, w0, w1, w2, w3);
    assert p.d * (x * (x * x) + e) == p.d * (x * (x * x)) + p.d * e;
  }

  /** The error on the samples of a cubic. */
  lemma InterpolationError(row: nat, p: Cubic)
    requires row < INTERP_MAX
    ensures |CubicTable()| == INTERP_MAX * CUBIC_ORDER
    ensures Interpolate(row, Samples(p)) == Value(p, Position(row)) + p.d * Excess(Position(row))
  {
    var x := Position(row);
    InterpolateIsWeights(row, Samples(p));
    Moments(x);
    hide Interpolate, CubicTable, Position, Weight, Excess, Value, Blend, Samples;
    Weighed(p, Weight(x, 0), Weight(x, 1), Weight(x, 2), Weight(x, 3), x, Excess(x));
  }

  /** Interpolating the samples of a polynomial gives its value exactly if it has degree two at most,
      or if the position is at a sample or halfway between two. */
  lemma ExactInterpolation(row: nat, p: Cubic)
    requires row < INTERP_MAX
    ensures |CubicTable()| == INTERP_MAX * CUBIC_ORDER
    ensures Interpolate(row, Samples(p)) == Value(p, Position(row)) <==> p.d == 0.0 || row == 0 || row == 128
  {
    InterpolationError(row, p);
    NoExcess(row);
    hide Interpolate, CubicTable, Value, Excess, Samples;
    if p.d != 0.0 && Excess(Position(row)) != 0.0 {
      NoZeroDivisors(p.d, Excess(Position(row)));
    }
  }

  lemma NoZeroDivisors(a: real, b: real)
    requires a != 0.0 && b != 0.0
    ensures a * b != 0.0
  {
    assert a * b / b == a;
  }

  lemma NoZeroFactor(a: real, b: real, c: real, product: real)
    requires a != 0.0 && b != 0.0 && c != 0.0 && product == a * b * c
    ensures product != 0.0
  {
    NoZeroDivisors(a, b);
    var d := a * b;
    NoZeroDivisors(d, c);
  }

  lemma NoExcess(row: nat)
    requires row < INTERP_MAX
    ensures Excess(Position(row)) == 0.0 <==> row == 0 || row == 128
  {
    var x := Position(row);
    if row != 0 && row != 128 {
      assert 0.0 < x < 1.0 && 1.0 - 2.0 * x != 0.0;
      NoZeroFactor(x, 1.0 - x, 1.0 - 2.0 * x, Excess(x));
    }
  }

  /** A row and the one as far from the other end hold the same taps in opposite order. */
  lemma RowsMirror(row: nat, k: nat)
    requires 0 < row < INTERP_MAX && k < CUBIC_ORDER
    ensures |CubicTable()| == INTERP_MAX * CUBIC_ORDER
    ensures CubicTable()[CUBIC_ORDER * (INTERP_MAX - row) + CUBIC_ORDER - 1 - k] == CubicTable()[CUBIC_ORDER * row + k]
  {
    TableHoldsTaps(row, k);
    TableHoldsTaps(INTERP_MAX - row, CUBIC_ORDER - 1 - k);
    assert Position(INTERP_MAX - row) == 1.0 - Position(row);
    hide CubicTable, Weight, Position;
    WeightsMirror(Position(row), k);
  }

  lemma WeightsMirror(x: real, k: nat)
    requires k < CUBIC_ORDER
    ensures Weight(1.0 - x, 3 - k) == Weight(x, k)
  {
    var y := 1.0 - x;
    Expanded(x);
    Expanded(y);
    hide Weight, Excess;
    assert y * y == 1.0 - 2.0 * x + x * x;
    assert y * (y * y) == 1.0 - 3.0 * x + 3.0 * (x * x) - x * (x * x);
  }
}
