/**
 * Event-major layout of a worker population: each event ID repeated once per
 * worker of that event, events in list order. Both simulators build their
 * workers in this order with two nested loops.
 */
module Cohorts {

  /** `x` repeated `k` times. */
  function Repeat<T>(x: T, k: nat): (r: seq<T>)
    ensures |r| == k && forall i :: 0 <= i < k ==> r[i] == x
  {
    seq(k, _ => x)
  }

  /** Each element of `xs` repeated `k` times, in order. */
  function Expand<T>(xs: seq<T>, k: nat): (r: seq<T>)
    ensures |r| == |xs| * k
  {
    if xs == [] then [] else Expand(xs[..|xs| - 1], k) + Repeat(xs[|xs| - 1], k)
  }

  /** Within the slot of element `e` the quotient by `k` is `e`. */
  lemma DivSlot(e: nat, k: nat, j: nat)
    requires j < k
    ensures (e * k + j) / k == e
  {
    var q := (e * k + j) / k;
    var m := (e * k + j) % k;
    assert e * k + j == q * k + m;
    if q < e {
      assert (q + 1) * k <= e * k by { MulMono(q + 1, e, k); }
      assert false;
    } else if q > e {
      assert (e + 1) * k <= q * k by { MulMono(e + 1, q, k); }
      assert false;
    }
  }

  /** Below the slot of `m` the quotient is below `m`. */
  lemma DivBelow(i: nat, k: nat, m: nat)
    requires k > 0 && i < m * k
    ensures i / k < m
  {
    var q := i / k;
    assert q * k <= i;
    if q >= m {
      MulMono(m, q, k);
      assert false;
    }
  }

  lemma MulMono(a: nat, b: nat, k: nat)
    requires a <= b
    ensures a * k <= b * k
  {
  }

  /** Element `i` of the expansion belongs to element `i / k`: the event-major numbering. */
  lemma {:induction false} ExpandAt<T>(xs: seq<T>, k: nat, i: nat)
    requires i < |xs| * k
    ensures k > 0 && i / k < |xs| && Expand(xs, k)[i] == xs[i / k]
  {
    var n := |xs|;
    assert k > 0;
    assert n > 0;
    DivBelow(i, k, n);
    var init := xs[..n - 1];
    var base := (n - 1) * k;
    assert n * k == base + k;
    assert Expand(xs, k) == Expand(init, k) + Repeat(xs[n - 1], k);
    assert |Expand(init, k)| == base;
    if i < base {
      ExpandAt(init, k, i);
      DivBelow(i, k, n - 1);
      assert Expand(xs, k)[i] == Expand(init, k)[i] == init[i / k] == xs[i / k];
    } else {
      DivSlot(n - 1, k, i - base);
      assert base + (i - base) == i;
      assert i / k == n - 1;
      assert Expand(xs, k)[i] == Repeat(xs[n - 1], k)[i - base];
    }
  }
}
