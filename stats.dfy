/** Sums and means of latency samples (Python's `sum(xs) / len(xs)`, pandas' `mean`). */
module Stats {
  import opened Wrappers

  /** Left-to-right sum, as Python's `sum` accumulates. */
  function Sum(xs: seq<real>): real
  {
    if xs == [] then 0.0 else Sum(xs[..|xs| - 1]) + xs[|xs| - 1]
  }

  /** The arithmetic mean; `None` (NaN) for an empty sample. */
  function Mean(xs: seq<real>): (m: Option<real>)
    ensures m.None? <==> xs == []
  {
    if xs == [] then None else Some(Sum(xs) / |xs| as real)
  }

  lemma {:induction false} SumAppend(a: seq<real>, b: seq<real>)
    ensures Sum(a + b) == Sum(a) + Sum(b)
    decreases |b|
  {
    if b != [] {
      var n := |b| - 1;
      assert a + b == (a + b[..n]) + [b[n]];
      assert (a + b)[..|a + b| - 1] == a + b[..n];
      SumAppend(a, b[..n]);
    } else {
      assert a + b == a;
    }
  }

  /** The mean of a non-empty sample lies between its smallest and largest element. */
  lemma {:induction false} MeanBetween(xs: seq<real>, lo: real, hi: real)
    requires xs != []
    requires forall i :: 0 <= i < |xs| ==> lo <= xs[i] <= hi
    ensures lo <= Mean(xs).value <= hi
  {
    SumBetween(xs, lo, hi);
    var n := |xs| as real;
    assert lo * n <= Sum(xs) <= hi * n;
    assert Sum(xs) / n <= hi by {
      assert Sum(xs) / n * n == Sum(xs);
    }
    assert lo <= Sum(xs) / n by {
      assert Sum(xs) / n * n == Sum(xs);
    }
  }

  lemma {:induction false} SumBetween(xs: seq<real>, lo: real, hi: real)
    requires forall i :: 0 <= i < |xs| ==> lo <= xs[i] <= hi
    ensures lo * |xs| as real <= Sum(xs) <= hi * |xs| as real
  {
    if xs != [] {
      SumBetween(xs[..|xs| - 1], lo, hi);
    }
  }

  /** `n` copies of `x` sum to `n x`. */
  lemma {:induction false} UniformSum(x: real, n: nat)
    ensures Sum(seq(n, _ => x)) == n as real * x
  {
    if n > 0 {
      var xs := seq(n, _ => x);
      UniformSum(x, n - 1);
      assert xs[..n - 1] == seq(n - 1, _ => x);
      calc {
        Sum(xs);
        Sum(xs[..n - 1]) + x;
        (n - 1) as real * x + x;
        { assert (n - 1) as real * x + x == ((n - 1) as real + 1.0) * x; }
        n as real * x;
      }
    }
  }
}
