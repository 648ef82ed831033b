/** The dither table, over exact reals: successive differences of random numbers. */
module Dither {
  import opened Arithmetic

  const DITHER_SIZE: nat := 48000
  const DITHER_CHANNELS: nat := 2

  /** The index after i in a table of n entries. */
  function NextIndex(i: nat, n: nat): nat {
    if i + 1 >= n then 0 else i + 1
  }

  /** The random number before entry i; none before the first. */
  function Level(d: seq<real>, i: nat): real
    requires i <= |d|
  {
    if i == 0 then 0.0 else d[i - 1]
  }

  /** The table built from the random numbers d: each less its predecessor, and one last entry that
      takes the sum back to zero. */
  function Table(d: seq<real>): (t: seq<real>)
    ensures |t| == |d| + 1
    ensures forall i {:trigger t[i]} :: 0 <= i < |d| ==> t[i] == d[i] - Level(d, i)
    ensures t[|d|] == 0.0 - Level(d, |d|)
  {
    seq(|d| + 1, i requires 0 <= i <= |d| => (if i < |d| then d[i] else 0.0) - Level(d, i))
  }

  ghost predicate Bounded(d: seq<real>) {
    forall i :: 0 <= i < |d| ==> -0.5 <= d[i] <= 0.5
  }

  /** The index n frames after index i. */
  function Advance(i: nat, n: nat, size: nat): (k: nat)
    requires i < size
    ensures k < size
  {
    if n == 0 then i else NextIndex(Advance(i, n - 1, size), size)
  }

  /** The dither added to n successive frames from index i on, wrapping at the end of the table. */
  function WindowSum(t: seq<real>, i: nat, n: nat): real
    requires i < |t|
  {
    if n == 0 then 0.0 else WindowSum(t, i, n - 1) + t[Advance(i, n - 1, |t|)]
  }

  lemma NextIsModulo(x: nat, m: nat)
    requires 0 < m
    ensures NextIndex(x % m, m) == (x + 1) % m
  {
    var q, r := x / m, x % m;
    assert x == q * m + r;
    if r + 1 == m {
      assert x + 1 == (q + 1) * m + 0;
      DivModUnique(x + 1, q + 1, 0, m);
    } else {
      DivModUnique(x + 1, q, r + 1, m);
    }
  }

  lemma {:induction false} AdvanceIsModulo(i: nat, n: nat, size: nat)
    requires i < size
    ensures Advance(i, n, size) == (i + n) % size
  {
    if n == 0 {
      DivModUnique(i, 0, i, size);
    } else {
      AdvanceIsModulo(i, n - 1, size);
      NextIsModulo(i + n - 1, size);
    }
  }

  lemma TableEntry(d: seq<real>, i: nat)
    requires i <= |d|
    ensures Table(d)[i] == Level(d, NextIndex(i, |d| + 1)) - Level(d, i)
  {
  }

  /** The accumulated dither telescopes: it only depends on where the window starts and ends. */
  lemma {:induction false} WindowTelescopes(d: seq<real>, i: nat, n: nat)
    requires i <= |d|
    ensures WindowSum(Table(d), i, n) == Level(d, Advance(i, n, |d| + 1)) - Level(d, i)
  {
    hide Table, Level;
    if n != 0 {
      WindowTelescopes(d, i, n - 1);
      TableEntry(d, Advance(i, n - 1, |d| + 1));
    }
  }

  /** Over any run of frames, of any length and from any index, the dither adds up to at most one
      step in either direction. */
  lemma WindowBounded(d: seq<real>, i: nat, n: nat)
    requires i <= |d| && Bounded(d)
    ensures -1.0 <= WindowSum(Table(d), i, n) <= 1.0
  {
    WindowTelescopes(d, i, n);
  }

  /** Over a whole period it cancels out. */
  lemma PeriodSumsToZero(d: seq<real>, i: nat)
    requires i <= |d|
    ensures WindowSum(Table(d), i, |d| + 1) == 0.0
  {
    WindowTelescopes(d, i, |d| + 1);
    AdvanceIsModulo(i, |d| + 1, |d| + 1);
    DivModUnique(i + (|d| + 1), 1, i, |d| + 1);
  }

  /** The random numbers of one channel, shifted to the range from -1/2 to 1/2. */
  function Noise(random: (nat, nat) -> real, c: nat): (d: seq<real>)
    ensures |d| == DITHER_SIZE - 1
    ensures forall i {:trigger d[i]} :: 0 <= i < |d| ==> d[i] == random(c, i) - 0.5
  {
    seq(DITHER_SIZE - 1, (i: nat) => random(c, i) - 0.5)
  }

  /** init_dither; random(c, i) stands for the quotient of rand() and RAND_MAX. */
  method InitDither(table: array2<real>, random: (nat, nat) -> real)
    requires table.Length0 == DITHER_CHANNELS && table.Length1 == DITHER_SIZE
    modifies table
    ensures forall c, i :: 0 <= c < DITHER_CHANNELS && 0 <= i < DITHER_SIZE ==>
              table[c, i] == Table(Noise(random, c))[i]
    ensures forall c :: 0 <= c < 2 ==> table[c, 0] == random(c, 0) - 0.5
    ensures forall c, i :: 0 <= c < 2 && 0 < i < 47999 ==> table[c, i] == random(c, i) - random(c, i - 1)
    ensures forall c :: 0 <= c < 2 ==> table[c, 47999] == 0.5 - random(c, 47998)
  {
    var c := 0;
    while c < DITHER_CHANNELS
      invariant 0 <= c <= DITHER_CHANNELS
      invariant forall k, i :: 0 <= k < c && 0 <= i < DITHER_SIZE ==> table[k, i] == Table(Noise(random, k))[i]
    {
      ghost var d' := Noise(random, c);
      var dp := 0.0;
      var i := 0;
      while i < DITHER_SIZE - 1
        invariant 0 <= i <= DITHER_SIZE - 1
        invariant dp == Level(d', i)
        invariant forall j :: 0 <= j < i ==> table[c, j] == Table(d')[j]
        invariant forall k, j :: 0 <= k < c && 0 <= j < DITHER_SIZE ==> table[k, j] == Table(Noise(random, k))[j]
      {
        var d := random(c, i) - 0.5;
        table[c, i] := d - dp;
        dp := d;
        i := i + 1;
      }
      table[c, DITHER_SIZE - 1] := 0.0 - dp;
      c := c + 1;
    }
  }

  /** So every entry of the table is a step of at most one, for random numbers from 0 to 1. */
  lemma TableEntriesBounded(d: seq<real>, i: nat)
    requires i <= |d| && Bounded(d)
    ensures -1.0 <= Table(d)[i] <= 1.0
  {
    assert i < |d| ==> Table(d)[i] == d[i] - Level(d, i);
  }
}
