/** The resampler of the whisper server (`resample`): the identity when the
    rates agree, otherwise the linear-interpolation fallback. Samples are
    exact reals and source positions exact rationals `i * from / to`. */
module Resample {
  import opened Wrappers

  /** `int(len(samples) * ratio)` with `ratio = to / from`: the output
      length, truncated toward zero. It is the largest count whose duration
      at the new rate does not exceed the input's duration at the old rate. */
  function OutputLength(n: nat, fromRate: nat, toRate: nat): (m: nat)
    requires fromRate > 0
    ensures m * fromRate <= n * toRate < (m + 1) * fromRate
  {
    var m := n * toRate / fromRate;
    assert n * toRate == m * fromRate + n * toRate % fromRate;
    assert (m + 1) * fromRate == m * fromRate + fromRate;
    m
  }

  /** `np.arange(n_out) / ratio` at index `i`: where output sample `i`
      falls on the input's time axis, in input samples. */
  function Position(i: nat, fromRate: nat, toRate: nat): (p: real)
    requires toRate > 0
    ensures p >= 0.0 && p * toRate as real == (i * fromRate) as real
  {
    (i * fromRate) as real / toRate as real
  }

  /** `np.floor(indices)`: the input sample at or before the position. */
  function Left(i: nat, fromRate: nat, toRate: nat): (l: int)
    requires toRate > 0
    ensures 0 <= l
    ensures l as real <= Position(i, fromRate, toRate) < l as real + 1.0
  {
    Position(i, fromRate, toRate).Floor
  }

  /** `np.minimum(left + 1, len(samples) - 1)`: the following input sample,
      clamped to the last one. */
  function Right(n: nat, left: int): (r: int)
    ensures r <= left + 1 && r <= n - 1
    ensures r == left + 1 || r == n - 1
  {
    if left + 1 < n - 1 then left + 1 else n - 1
  }

  /** `indices - left`: how far the position lies past its left neighbour. */
  function Frac(i: nat, fromRate: nat, toRate: nat): (f: real)
    requires toRate > 0
    ensures 0.0 <= f < 1.0
    ensures Left(i, fromRate, toRate) as real + f == Position(i, fromRate, toRate)
  {
    Position(i, fromRate, toRate) - Left(i, fromRate, toRate) as real
  }

  /** `x` lies in the closed interval spanned by `a` and `b`. */
  predicate Between(x: real, a: real, b: real)
  {
    (a <= x <= b) || (b <= x <= a)
  }

  /** `a * (1 - f) + b * f`: with weight 0 it is `a`, with weight 1 it is
      `b`, and with a weight in between it lies between them. */
  function Blend(a: real, b: real, f: real): (x: real)
    ensures f == 0.0 ==> x == a
    ensures f == 1.0 ==> x == b
    ensures 0.0 <= f <= 1.0 ==> Between(x, a, b)
  {
    Interpolates(a, b, f);
    a * (1.0 - f) + b * f
  }

  /** The arithmetic behind `Blend`: moving a fraction `f` of the way from
      `a` to `b` stays between them. */
  lemma Interpolates(a: real, b: real, f: real)
    ensures 0.0 <= f <= 1.0 ==> Between(a * (1.0 - f) + b * f, a, b)
  {
    var x := a * (1.0 - f) + b * f;
    if f < 0.0 || 1.0 < f {
    } else if a <= b {
      ScaleWithin(b - a, f);
      assert x - a == (b - a) * f;
      assert b - x == (b - a) * (1.0 - f);
    } else {
      ScaleWithin(a - b, f);
      assert a - x == (a - b) * f;
      assert x - b == (a - b) * (1.0 - f);
    }
  }

  /** Splitting a non-negative length `d` at a weight in [0, 1] leaves two
      non-negative pieces. */
  lemma ScaleWithin(d: real, f: real)
    requires d >= 0.0 && 0.0 <= f <= 1.0
    ensures 0.0 <= d * f && 0.0 <= d * (1.0 - f)
  {
  }

  /** The blend is linear in its weight: it moves from `a` by the fraction
      `f` of the distance to `b`. */
  lemma BlendLinear(a: real, b: real, f: real)
    ensures Blend(a, b, f) - a == (b - a) * f
  {
  }

  /** Every output index reads inside the input: `0 <= left <= right <= n-1`,
      and the blend weight lies in [0, 1). */
  lemma IndexSafety(n: nat, fromRate: nat, toRate: nat, i: nat)
    requires fromRate > 0 && toRate > 0
    requires i < OutputLength(n, fromRate, toRate)
    ensures 0 <= Left(i, fromRate, toRate) <= n - 1
    ensures Left(i, fromRate, toRate) <= Right(n, Left(i, fromRate, toRate)) <= n - 1
    ensures 0.0 <= Frac(i, fromRate, toRate) < 1.0
  {
    var m := OutputLength(n, fromRate, toRate);
    assert (i + 1) * fromRate <= m * fromRate by {
      assert i + 1 <= m;
    }
    assert i * fromRate < n * toRate by {
      assert (i + 1) * fromRate == i * fromRate + fromRate;
    }
    var p := Position(i, fromRate, toRate);
    assert p < n as real by {
      assert (i * fromRate) as real < (n * toRate) as real;
      assert (n * toRate) as real == n as real * toRate as real;
      assert p * toRate as real == (i * fromRate) as real;
    }
    assert 0.0 <= p;
  }

  /** `IndexSafety` for every output index at once. */
  lemma IndexSafetyAll(n: nat, fromRate: nat, toRate: nat)
    requires fromRate > 0 && toRate > 0
    ensures forall i: nat :: i < OutputLength(n, fromRate, toRate) ==>
              && 0 <= Left(i, fromRate, toRate)
              && Left(i, fromRate, toRate) <= Right(n, Left(i, fromRate, toRate)) <= n - 1
              && 0.0 <= Frac(i, fromRate, toRate) < 1.0
  {
    forall i: nat | i < OutputLength(n, fromRate, toRate)
      ensures 0 <= Left(i, fromRate, toRate)
      ensures Left(i, fromRate, toRate) <= Right(n, Left(i, fromRate, toRate)) <= n - 1
      ensures 0.0 <= Frac(i, fromRate, toRate) < 1.0
    {
      IndexSafety(n, fromRate, toRate, i);
    }
  }

  /** The output sample at index `i`, which the caller keeps in range: the
      blend of the input samples around position `i`, so it lies between
      them. */
  function SampleAt(samples: seq<real>, fromRate: nat, toRate: nat, i: nat): (x: real)
    requires fromRate > 0 && toRate > 0
    requires i < OutputLength(|samples|, fromRate, toRate)
    ensures 0 <= Left(i, fromRate, toRate) <= Right(|samples|, Left(i, fromRate, toRate)) < |samples|
    ensures Between(x, samples[Left(i, fromRate, toRate)], samples[Right(|samples|, Left(i, fromRate, toRate))])
  {
    IndexSafety(|samples|, fromRate, toRate, i);
    var l := Left(i, fromRate, toRate);
    Blend(samples[l], samples[Right(|samples|, l)], Frac(i, fromRate, toRate))
  }

  /** The linear-interpolation fallback. Every read is in bounds, and every
      output sample lies between the two input samples it blends. */
  function Fallback(samples: seq<real>, fromRate: nat, toRate: nat): (out: seq<real>)
    requires fromRate > 0
    ensures |out| == OutputLength(|samples|, fromRate, toRate)
    ensures toRate > 0 ==> forall i: nat :: i < |out| ==>
              && 0 <= Left(i, fromRate, toRate) <= Right(|samples|, Left(i, fromRate, toRate)) < |samples|
              && Between(out[i], samples[Left(i, fromRate, toRate)], samples[Right(|samples|, Left(i, fromRate, toRate))])
  {
    var m := OutputLength(|samples|, fromRate, toRate);
    if toRate == 0 then
      []
    else
      IndexSafetyAll(|samples|, fromRate, toRate);
      seq(m, i requires 0 <= i < m => SampleAt(samples, fromRate, toRate, i))
  }

  /** Output sample `i` of the fallback is the blend at index `i`. */
  lemma FallbackAt(samples: seq<real>, fromRate: nat, toRate: nat, i: nat)
    requires fromRate > 0 && toRate > 0
    requires i < OutputLength(|samples|, fromRate, toRate)
    ensures i < |Fallback(samples, fromRate, toRate)|
    ensures Fallback(samples, fromRate, toRate)[i] == SampleAt(samples, fromRate, toRate, i)
  {
  }

  /** `resample(samples, from_rate, to_rate)` with the fallback in place of
      the band-limited library: the identity when the rates agree, the
      fallback otherwise, and `None` when `to_rate / from_rate` divides by
      zero. */
  function Resample(samples: seq<real>, fromRate: nat, toRate: nat): (r: Option<seq<real>>)
    ensures fromRate == toRate ==> r == Some(samples)
    ensures r.None? <==> fromRate != toRate && fromRate == 0
    ensures r.Some? && fromRate != toRate ==> |r.value| == OutputLength(|samples|, fromRate, toRate)
    ensures r.Some? && fromRate != toRate ==> r.value == Fallback(samples, fromRate, toRate)
  {
    if fromRate == toRate then Some(samples)
    else if fromRate == 0 then None
    else Some(Fallback(samples, fromRate, toRate))
  }

  /** All samples of `xs` lie in [-1, 1). */
  predicate InUnitRange(xs: seq<real>)
  {
    forall i :: 0 <= i < |xs| ==> -1.0 <= xs[i] < 1.0
  }

  /** Interpolation never leaves the input's range: inputs in [-1, 1) give
      outputs in [-1, 1). */
  lemma FallbackPreservesRange(samples: seq<real>, fromRate: nat, toRate: nat)
    requires fromRate > 0
    requires InUnitRange(samples)
    ensures InUnitRange(Fallback(samples, fromRate, toRate))
  {
    var out := Fallback(samples, fromRate, toRate);
    forall i | 0 <= i < |out|
      ensures -1.0 <= out[i] < 1.0
    {
      var l := Left(i, fromRate, toRate);
      assert Between(out[i], samples[l], samples[Right(|samples|, l)]);
    }
  }

  /** The same for `Resample`, whichever branch it takes. */
  lemma ResamplePreservesRange(samples: seq<real>, fromRate: nat, toRate: nat)
    requires InUnitRange(samples)
    requires Resample(samples, fromRate, toRate).Some?
    ensures InUnitRange(Resample(samples, fromRate, toRate).value)
  {
    if fromRate != toRate {
      FallbackPreservesRange(samples, fromRate, toRate);
    }
  }

  /** Constant input (silence, say) resamples to the same constant. */
  lemma FallbackConstant(samples: seq<real>, fromRate: nat, toRate: nat, c: real)
    requires fromRate > 0
    requires forall i :: 0 <= i < |samples| ==> samples[i] == c
    ensures forall i :: 0 <= i < |Fallback(samples, fromRate, toRate)| ==> Fallback(samples, fromRate, toRate)[i] == c
  {
    var out := Fallback(samples, fromRate, toRate);
    forall i | 0 <= i < |out|
      ensures out[i] == c
    {
      var l := Left(i, fromRate, toRate);
      assert Between(out[i], samples[l], samples[Right(|samples|, l)]);
    }
  }

  /** A linear ramp `c + d * k` is reproduced exactly: wherever output `i`
      has two distinct neighbours, it is the ramp's value at position `i`.
      Nearest-neighbour or any other non-linear scheme would not do this. */
  lemma FallbackRamp(samples: seq<real>, fromRate: nat, toRate: nat, c: real, d: real, i: nat)
    requires fromRate > 0 && toRate > 0
    requires forall k :: 0 <= k < |samples| ==> samples[k] == c + d * k as real
    requires i < OutputLength(|samples|, fromRate, toRate)
    requires Left(i, fromRate, toRate) + 1 < |samples|
    ensures i < |Fallback(samples, fromRate, toRate)|
    ensures Fallback(samples, fromRate, toRate)[i] == c + d * Position(i, fromRate, toRate)
  {
  }

  /** An exact quotient of integers is the same in the reals. */
  lemma ExactQuotient(a: int, b: int, q: int)
    requires b > 0 && a == q * b
    ensures a as real / b as real == q as real
  {
    assert a as real == q as real * b as real;
  }

  /** Where the position is a whole input index `j`, the output copies
      input sample `j` unchanged. */
  lemma SampleAtGridPoint(samples: seq<real>, fromRate: nat, toRate: nat, i: nat, j: nat)
    requires fromRate > 0 && toRate > 0
    requires i < OutputLength(|samples|, fromRate, toRate)
    requires i * fromRate == j * toRate
    ensures j < |samples|
    ensures SampleAt(samples, fromRate, toRate, i) == samples[j]
  {
    IndexSafety(|samples|, fromRate, toRate, i);
    ExactQuotient(i * fromRate, toRate, j);
    assert Position(i, fromRate, toRate) == j as real;
    assert Left(i, fromRate, toRate) == j;
    assert Frac(i, fromRate, toRate) == 0.0;
  }

  /** The identity short-circuit changes nothing: run at equal rates, the
      fallback would also return its input. */
  lemma FallbackAtEqualRates(samples: seq<real>, rate: nat)
    requires rate > 0
    ensures Fallback(samples, rate, rate) == samples
  {
    var out := Fallback(samples, rate, rate);
    assert OutputLength(|samples|, rate, rate) == |samples| by {
      DivisionUnique(|samples| * rate, rate, |samples|, 0);
    }
    forall i | 0 <= i < |out|
      ensures out[i] == samples[i]
    {
      FallbackAt(samples, rate, rate, i);
      SampleAtGridPoint(samples, rate, rate, i, i);
    }
  }

  /** Downsampling by a whole factor `k` picks every `k`-th input sample. */
  lemma FallbackDecimates(samples: seq<real>, toRate: nat, k: nat)
    requires toRate > 0 && k > 0
    ensures |Fallback(samples, k * toRate, toRate)| == |samples| / k
    ensures forall i :: 0 <= i < |samples| / k ==> i * k < |samples| && Fallback(samples, k * toRate, toRate)[i] == samples[i * k]
  {
    var out := Fallback(samples, k * toRate, toRate);
    assert OutputLength(|samples|, k * toRate, toRate) == |samples| / k by {
      DecimatedLength(|samples|, toRate, k);
    }
    forall i | 0 <= i < |samples| / k
      ensures i * k < |samples| && out[i] == samples[i * k]
    {
      FallbackAt(samples, k * toRate, toRate, i);
      assert i * (k * toRate) == (i * k) * toRate;
      SampleAtGridPoint(samples, k * toRate, toRate, i, i * k);
    }
  }

  /** `n * t / (k * t) == n / k`. */
  lemma DecimatedLength(n: nat, t: nat, k: nat)
    requires t > 0 && k > 0
    ensures n * t / (k * t) == n / k
  {
    var q := n / k;
    var rem := n % k;
    assert n * t == q * (k * t) + rem * t by {
      assert n == q * k + rem;
    }
    assert rem * t < k * t by {
      assert (k - rem) * t > 0;
    }
    DivisionUnique(n * t, k * t, q, rem * t);
  }

  /** Integer division is determined by quotient and remainder. */
  lemma DivisionUnique(a: int, b: int, q: int, rem: int)
    requires b > 0 && 0 <= rem < b && a == q * b + rem
    ensures a / b == q
  {
    var q' := a / b;
    var rem' := a % b;
    assert a == q' * b + rem';
    var d := q - q';
    assert d * b == rem' - rem by {
      assert d * b == q * b - q' * b;
    }
    assert (d - 1) * b < 0 && (d + 1) * b > 0;
    assert d == 0;
  }
}
