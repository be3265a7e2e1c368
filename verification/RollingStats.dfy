/** Mean and variance of the last values, maintained in constant time. */
module RollingStats {
  import Bits

  function Sum(xs: seq<real>): real {
    if xs == [] then 0.0 else xs[0] + Sum(xs[1..])
  }

  /** Sum of squared deviations from `c`. */
  function Spread(xs: seq<real>, c: real): real {
    if xs == [] then 0.0 else (xs[0] - c) * (xs[0] - c) + Spread(xs[1..], c)
  }

  lemma {:induction false} SumAppend(xs: seq<real>, x: real)
    ensures Sum(xs + [x]) == Sum(xs) + x
  {
    if xs != [] {
      assert (xs + [x])[1..] == xs[1..] + [x];
      SumAppend(xs[1..], x);
    }
  }

  lemma {:induction false} SpreadAppend(xs: seq<real>, x: real, c: real)
    ensures Spread(xs + [x], c) == Spread(xs, c) + (x - c) * (x - c)
  {
    if xs != [] {
      assert (xs + [x])[1..] == xs[1..] + [x];
      SpreadAppend(xs[1..], x, c);
    }
  }

  function SumOfSquares(xs: seq<real>): real {
    if xs == [] then 0.0 else xs[0] * xs[0] + SumOfSquares(xs[1..])
  }

  lemma {:induction false} SquaresAppend(xs: seq<real>, x: real)
    ensures SumOfSquares([]) == 0.0 && SumOfSquares(xs + [x]) == SumOfSquares(xs) + x * x
  {
    if xs != [] {
      assert (xs + [x])[1..] == xs[1..] + [x];
      SquaresAppend(xs[1..], x);
    }
  }

  lemma {:induction false} SpreadAroundZero(xs: seq<real>)
    ensures Spread(xs, 0.0) == SumOfSquares(xs)
  {
    if xs != [] {
      SpreadAroundZero(xs[1..]);
    }
  }

  /** The spread around any centre, from the plain sums. */
  lemma SpreadIs(xs: seq<real>, c: real)
    ensures Spread(xs, c) == SumOfSquares(xs) - 2.0 * c * Sum(xs) + |xs| as real * c * c
  {
    SpreadAroundZero(xs);
    SpreadShift(xs, |xs| as real, 0.0, c);
  }

  /** Values spread by nothing around `c` are all `c`. */
  lemma {:induction false} SpreadZeroIff(xs: seq<real>, c: real)
    ensures Spread(xs, c) == 0.0 <==> forall i :: 0 <= i < |xs| ==> xs[i] == c
  {
    if xs != [] {
      var rest := xs[1..];
      SpreadZeroIff(rest, c);
      SpreadNonNegative(rest, c);
      SquareZeroIff(xs[0] - c);
      assert forall i :: 0 < i < |xs| ==> xs[i] == rest[i - 1];
      assert forall i :: 0 <= i < |rest| ==> rest[i] == xs[i + 1];
    }
  }

  lemma SquareZeroIff(x: real)
    ensures x * x >= 0.0 && (x * x == 0.0 <==> x == 0.0)
  {
    if x != 0.0 {
      assert x == x * x / x;
    }
  }

  lemma SquareNonNegative(x: real)
    ensures x * x >= 0.0
  {
  }

  lemma {:induction false} SpreadNonNegative(xs: seq<real>, c: real)
    ensures Spread(xs, c) >= 0.0
  {
    if xs != [] {
      SquareNonNegative(xs[0] - c);
      SpreadNonNegative(xs[1..], c);
    }
  }

  /** The spread around `d`, given sum `s`, length `n` and spread `q` around `c`. */
  function Shifted(s: real, n: real, q: real, c: real, d: real): real {
    q - 2.0 * (d - c) * (s - n * c) + n * (d - c) * (d - c)
  }

  /** Moving the centre. */
  lemma {:induction false} SpreadShift(xs: seq<real>, n: real, c: real, d: real)
    requires n == |xs| as real
    ensures Spread(xs, d) == Shifted(Sum(xs), n, Spread(xs, c), c, d)
    decreases |xs|
  {
    if xs == [] {
      ShiftNothing(n, c, d);
    } else {
      var o, rest := xs[0], xs[1..];
      SpreadShift(rest, n - 1.0, c, d);
      SpreadHead(xs, o, c);
      SpreadHead(xs, o, d);
      ShiftStep(o, c, d, n, Sum(rest), Sum(xs), Spread(rest, c), Spread(xs, c), Spread(rest, d), Spread(xs, d));
    }
  }

  lemma SpreadHead(xs: seq<real>, o: real, c: real)
    requires xs != [] && o == xs[0]
    ensures Spread(xs, c) == (o - c) * (o - c) + Spread(xs[1..], c)
  {
  }

  lemma ShiftNothing(n: real, c: real, d: real)
    requires n == 0.0
    ensures Shifted(0.0, n, 0.0, c, d) == 0.0
  {
  }

  lemma ShiftStep(x: real, c: real, d: real, n: real, s: real, s': real, q: real, q': real, r: real, r': real)
    requires s' == x + s && q' == (x - c) * (x - c) + q && r' == (x - d) * (x - d) + r
    requires r == Shifted(s, n - 1.0, q, c, d)
    ensures r' == Shifted(s', n, q', c, d)
  {
  }

  /** The mean and the spread around it after one more value (the filling branch). */
  lemma Grow(xs: seq<real>, n: real, n': real, m: real, m': real, x: real)
    requires n == |xs| as real && n' == n + 1.0 && m * n == Sum(xs) && m' == m + (x - m) / n'
    ensures m' * n' == Sum(xs + [x])
    ensures Spread(xs + [x], m') == Spread(xs, m) + (x - m) * (x - m')
  {
    SumAppend(xs, x);
    GrowMean(m, m', n, n', x, Sum(xs));
    GrowFrom(xs, n, n', m, m', x);
  }

  lemma GrowFrom(xs: seq<real>, n: real, n': real, m: real, m': real, x: real)
    requires n == |xs| as real && n' == n + 1.0 && m * n == Sum(xs) && (m' - m) * n' == x - m
    ensures Spread(xs + [x], m') == Spread(xs, m) + (x - m) * (x - m')
  {
    SpreadAppend(xs, x, m');
    SpreadShift(xs, n, m, m');
    GrowSpread(m, m', n, n', x, Sum(xs), Spread(xs, m), Spread(xs, m'), Spread(xs + [x], m'));
  }

  lemma GrowMean(m: real, m': real, n: real, n': real, x: real, s: real)
    requires m * n == s && n >= 0.0 && n' == n + 1.0 && m' == m + (x - m) / n'
    ensures m' * n' == s + x && (m' - m) * n' == x - m
  {
    assert (x - m) / n' * n' == x - m;
  }

  lemma GrowSpread(m: real, m': real, n: real, n': real, x: real, s: real, q: real, shifted: real, q': real)
    requires m * n == s && n' == n + 1.0 && (m' - m) * n' == x - m
    requires shifted == Shifted(s, n, q, m, m') && q' == shifted + (x - m') * (x - m')
    ensures q' == q + (x - m) * (x - m')
  {
    var e := m' - m;
    assert s - n * m == 0.0;
    assert x - m' == n * e && x - m == n * e + e;
    assert (x - m') * (x - m') == n * e * (x - m');
    assert n * e * e + n * e * (x - m') == n * e * (x - m);
  }

  /** The same when the oldest value leaves as the new one arrives (the sliding branch). */
  lemma Slide(xs: seq<real>, o: real, n: real, m: real, m': real, x: real)
    requires xs != [] && o == xs[0] && n == |xs| as real && m * n == Sum(xs) && m' == m + (x - o) / n
    ensures m' * n == Sum(xs[1..] + [x])
    ensures Spread(xs[1..] + [x], m') == Spread(xs, m) + (x - m) * (x - m') - (o - m) * (o - m')
  {
    SumAppend(xs[1..], x);
    SlideMean(m, m', n, x, o, Sum(xs));
    SlideFrom(xs, o, n, m, m', x);
  }

  lemma SlideMean(m: real, m': real, n: real, x: real, o: real, s: real)
    requires m * n == s && n > 0.0 && m' == m + (x - o) / n
    ensures m' * n == s - o + x && (m' - m) * n == x - o
  {
    assert (x - o) / n * n == x - o;
  }

  lemma SlideFrom(xs: seq<real>, o: real, n: real, m: real, m': real, x: real)
    requires xs != [] && o == xs[0] && n == |xs| as real && m * n == Sum(xs) && (m' - m) * n == x - o
    ensures Spread(xs[1..] + [x], m') == Spread(xs, m) + (x - m) * (x - m') - (o - m) * (o - m')
  {
    SpreadAppend(xs[1..], x, m');
    SpreadShift(xs, n, m, m');
    SpreadHead(xs, o, m');
    SlideSpread(m, m', n, x, o, Sum(xs), Spread(xs, m), Spread(xs, m'), Spread(xs[1..], m'), Spread(xs[1..] + [x], m'));
  }

  lemma SlideSpread(m: real, m': real, n: real, x: real, o: real, s: real, q: real, shifted: real, tail: real, q': real)
    requires m * n == s && (m' - m) * n == x - o
    requires shifted == Shifted(s, n, q, m, m') && shifted == (o - m') * (o - m') + tail && q' == tail + (x - m') * (x - m')
    ensures q' == q + (x - m) * (x - m') - (o - m) * (o - m')
  {
    var e := m' - m;
    assert s - n * m == 0.0;
    assert n * e * e == (x - o) * e;
  }

  /** `m` is the mean of `xs` and `q` their spread around it. */
  ghost predicate Stats(xs: seq<real>, m: real, q: real) {
    m * |xs| as real == Sum(xs) && q == Spread(xs, m)
  }

  lemma GrowStats(xs: seq<real>, n: real, m: real, q: real, m': real, q': real, x: real)
    requires Stats(xs, m, q) && n == |xs| as real + 1.0
    requires m' == m + (x - m) / n && q' == q + (x - m) * (x - m')
    ensures Stats(xs + [x], m', q')
  {
    Grow(xs, |xs| as real, n, m, m', x);
    StatsAre(xs + [x], n, m', q');
  }

  lemma StatsAre(xs: seq<real>, n: real, m: real, q: real)
    requires n == |xs| as real && m * n == Sum(xs) && q == Spread(xs, m)
    ensures Stats(xs, m, q)
  {
  }

  lemma SlideStats(xs: seq<real>, o: real, n: real, m: real, q: real, m': real, q': real, x: real)
    requires Stats(xs, m, q) && xs != [] && o == xs[0] && n == |xs| as real
    requires m' == m + (x - o) / n && q' == q + ((x - m) * (x - m') - (o - m) * (o - m'))
    ensures Stats(xs[1..] + [x], m', q') && q' >= 0.0
  {
    Slide(xs, o, n, m, m', x);
    SpreadNonNegative(xs[1..] + [x], m');
    assert |xs[1..] + [x]| as real == n;
  }

  ghost predicate AllEqual(xs: seq<real>) {
    forall i, j :: 0 <= i < |xs| && 0 <= j < |xs| ==> xs[i] == xs[j]
  }

  /** Values are spread by nothing around their mean exactly if they are all equal. */
  lemma AllEqualIff(xs: seq<real>, m: real)
    requires xs != [] && m * |xs| as real == Sum(xs)
    ensures Spread(xs, m) == 0.0 <==> AllEqual(xs)
  {
    SpreadZeroIff(xs, m);
    if AllEqual(xs) {
      SumOfEqual(xs, |xs| as real, xs[0]);
      SameFactor(m, xs[0], |xs| as real);
    }
  }

  lemma {:induction false} SumOfEqual(xs: seq<real>, n: real, x: real)
    requires n == |xs| as real && forall i :: 0 <= i < |xs| ==> xs[i] == x
    ensures Sum(xs) == x * n
    decreases |xs|
  {
    if xs != [] {
      assert forall i :: 0 <= i < |xs[1..]| ==> xs[1..][i] == xs[i + 1];
      SumOfEqual(xs[1..], n - 1.0, x);
      assert x + x * (n - 1.0) == x * n;
    }
  }

  lemma SameFactor(x: real, y: real, n: real)
    requires n != 0.0 && x * n == y * n
    ensures x == y
  {
    assert x == x * n / n && y == y * n / n;
  }

  /** The squared deviations from the mean over one less than the number of values. */
  ghost predicate IsVariance(w: seq<real>, r: real)
    requires |w| >= 2
  {
    r * (|w| - 1) as real == Spread(w, Sum(w) / |w| as real)
  }

  /** Of two values: half the square of their difference. */
  lemma VarianceOfTwo(x: real, y: real, r: real)
    ensures IsVariance([x, y], r) <==> r == (x - y) * (x - y) / 2.0
  {
    var m := (x + y) / 2.0;
    assert [x, y][1..] == [y] && Sum([y]) == y && Sum([x, y]) == x + y;
    assert Spread([y], m) == (y - m) * (y - m) && Spread([x, y], m) == (x - m) * (x - m) + (y - m) * (y - m);
    assert x - m == (x - y) / 2.0 && y - m == (y - x) / 2.0;
  }

  lemma VarianceOfStats(w: seq<real>, m: real, q: real, r: real)
    requires |w| >= 2 && Stats(w, m, q) && r == q / (|w| - 1) as real
    ensures IsVariance(w, r) && (r == 0.0 <==> AllEqual(w))
  {
    QuotientIs(q, (|w| - 1) as real, r);
    MeanIs(m, |w| as real, Sum(w));
    AllEqualIff(w, m);
  }

  lemma MeanIs(m: real, n: real, s: real)
    requires n != 0.0 && m * n == s
    ensures m == s / n
  {
  }

  lemma QuotientIs(q: real, k: real, r: real)
    requires k > 0.0 && r == q / k
    ensures r * k == q && (r == 0.0 <==> q == 0.0)
  {
    assert q / k * k == q;
  }

  // ----- The circular window -----

  /** The last `n` values of a history, or all of it while it is shorter. */
  function Window(history: seq<real>, n: nat): (w: seq<real>)
    ensures |w| == if |history| < n then |history| else n
  {
    if |history| < n then history else history[|history| - n..]
  }

  class Rolling {
    const windowSize: nat
    const values: array<real>
    var index: nat
    var count: nat
    var mean: real
    var m2: real

    ghost var History: seq<real>

    /** Each of the last `count` values sits at its arrival number modulo the window size. */
    ghost predicate Ring()
      reads this, values
    {
      && windowSize > 0 && values.Length == windowSize
      && index == |History| % windowSize
      && count == |Window(History, windowSize)|
      && forall j :: |History| - count <= j < |History| ==> values[j % windowSize] == History[j]
    }

    /** `mean` is the mean of `xs` and `m2` their spread around it. */
    ghost predicate Tracks(xs: seq<real>)
      reads this`mean, this`m2
    {
      Stats(xs, mean, m2)
    }

    ghost predicate Valid()
      reads this, values
    {
      && Ring()
      && Tracks(Window(History, windowSize))
      && (count == 0 ==> mean == 0.0)
    }

    constructor (windowSize: nat)
      requires windowSize > 0
      ensures Valid() && History == [] && this.windowSize == windowSize && fresh(values)
      ensures count == 0 && mean == 0.0 && m2 == 0.0
    {
      this.windowSize := windowSize;
      values := new real[windowSize](_ => 0.0);
      index, count, mean, m2 := 0, 0, 0.0, 0.0;
      History := [];
    }

    method Add(value: real)
      requires Valid()
      modifies this, values
      ensures Valid() && History == old(History) + [value]
    {
      ghost var window := Window(History, windowSize);
      var oldVal, wasFull := Store(value);
      if !wasFull {
        AddFilling(value, window);
      } else {
        AddSliding(value, oldVal, window);
      }
    }

    /** Welford's update for one more value; `count` already includes it. */
    method AddFilling(value: real, ghost window: seq<real>)
      requires count == |window| + 1 && Tracks(window)
      modifies this`mean, this`m2
      ensures Tracks(window + [value])
    {
      ghost var m, q := mean, m2;
      var delta := value - mean;
      mean := mean + delta / count as real;
      m2 := m2 + delta * (value - mean);
      GrowStats(window, count as real, m, q, mean, m2, value);
    }

    /** The update for a value that replaces the oldest; the guard against a negative spread never fires. */
    method AddSliding(value: real, oldVal: real, ghost window: seq<real>)
      requires |window| == windowSize > 0 && oldVal == window[0] && Tracks(window)
      modifies this`mean, this`m2
      ensures Tracks(window[1..] + [value])
    {
      ghost var q := m2;
      var meanOld := mean;
      mean := mean + (value - oldVal) / windowSize as real;
      m2 := m2 + ((value - meanOld) * (value - mean) - (oldVal - meanOld) * (oldVal - mean));
      SlideStats(window, oldVal, windowSize as real, meanOld, q, mean, m2, value);
      m2 := if m2 < 0.0 then 0.0 else m2;
    }

    /** The circular store: overwrite the oldest slot, advance, and count up to the window size. */
    method Store(value: real) returns (oldVal: real, wasFull: bool)
      requires Ring()
      modifies this`index, this`count, this`History, values
      ensures Ring() && History == old(History) + [value]
      ensures var window := Window(old(History), windowSize);
              && wasFull == (|window| == windowSize)
              && (wasFull ==> oldVal == window[0])
              && Window(History, windowSize) == (if wasFull then window[1..] else window) + [value]
              && count == |Window(History, windowSize)|
    {
      ghost var h, n := |History|, windowSize;
      oldVal := values[index];
      values[index] := value;
      index := (index + 1) % windowSize;
      wasFull := count >= windowSize;
      if count < windowSize {
        count := count + 1;
      }
      History := History + [value];
      Bits.NextMod(h, n);
      if wasFull {
        Bits.SameIndex(h - n, n);
      }
      forall j | |History| - count <= j < |History| ensures values[j % n] == History[j] {
        if j < h {
          Bits.ApartIndices(j, h, n);
        }
      }
    }

    method Mean() returns (r: real)
      requires Valid()
      ensures r * |Window(History, windowSize)| as real == Sum(Window(History, windowSize))
      ensures History == [] ==> r == 0.0
    {
      r := mean;
    }

    /** The sample variance of the window: the squared deviations from its mean over one less than its
        length; zero exactly if all its values are equal. */
    method Variance() returns (r: real)
      requires Valid()
      ensures var w := Window(History, windowSize);
              if |w| < 2 then r == 0.0
              else IsVariance(w, r) && (r == 0.0 <==> AllEqual(w))
    {
      if count < 2 {
        return 0.0;
      }
      r := m2 / (count - 1) as real;
      VarianceOfStats(Window(History, windowSize), mean, m2, r);
    }

    method IsReady() returns (ready: bool)
      requires Valid()
      ensures ready <==> |History| >= windowSize
    {
      ready := count == windowSize;
    }
  }
}
