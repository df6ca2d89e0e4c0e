/**
 * The three NumPy operations used by the frame selector, on integer
 * sequences: `np.arange(a, b)`, `np.pad(x, (0, w), mode='edge')` and
 * `np.linspace(a, b, n).astype(int)`. Linspace is computed over exact
 * reals rather than IEEE doubles, then truncated toward zero as
 * `astype(int)` does.
 */
module NumPy {
  import opened Wrappers
  import opened Builtins

  /** `np.arange(a, b)`: the integers `a, a+1, …, b-1`, empty when `b <= a`. */
  function Arange(a: int, b: int): (r: seq<int>)
    ensures |r| == Max(0, b - a)
    ensures forall k :: 0 <= k < |r| ==> r[k] == a + k
  {
    if a < b then seq(b - a, k requires 0 <= k < b - a => a + k) else []
  }

  /**
   * `np.pad(s, (0, w), mode='edge')`: append `w` copies of the last
   * element. NumPy refuses to extend an empty array in edge mode and
   * raises `ValueError`, which is `None` here.
   */
  function EdgePad(s: seq<int>, w: nat): (r: Option<seq<int>>)
    ensures r.None? <==> s == [] && w > 0
    ensures r.Some? ==> |r.value| == |s| + w && r.value[..|s|] == s
    ensures r.Some? ==> forall k :: |s| <= k < |r.value| ==> r.value[k] == s[|s| - 1]
  {
    if s == [] then (if w == 0 then Some([]) else None)
    else Some(s + seq(w, _ => s[|s| - 1]))
  }

  /**
   * The `i`-th point of `np.linspace(a, b, n)` (endpoints included):
   * `a + i * (b - a) / (n - 1)`, and just `a` when `n == 1`.
   */
  function LinspacePoint(a: int, b: int, n: nat, i: nat): real
  {
    if n <= 1 then a as real
    else a as real + (i as real) * (((b - a) as real) / ((n - 1) as real))
  }

  /** `np.linspace(a, b, n).astype(int)`. */
  function Linspace(a: int, b: int, n: nat): (r: seq<int>)
    ensures |r| == n
  {
    seq(n, i requires 0 <= i < n => Trunc(LinspacePoint(a, b, n, i)))
  }

  /** For `0 <= i <= n - 1`, the step taken `i` times stays within `[0, b - a]`. */
  lemma StepWithin(d: real, n: nat, i: nat)
    requires n >= 2 && i < n && d >= 0.0
    ensures 0.0 <= (i as real) * (d / ((n - 1) as real)) <= d
  {
    var m := (n - 1) as real;
    var q := d / m;
    assert q * m == d && q >= 0.0;
    assert 0.0 <= (i as real) * q;
    assert (m - i as real) * q >= 0.0;
    assert (i as real) * q <= m * q;
  }

  /** Points further along a non-decreasing linspace are not smaller. */
  lemma StepMonotone(d: real, n: nat, i: nat, j: nat)
    requires n >= 2 && i <= j && d >= 0.0
    ensures (i as real) * (d / ((n - 1) as real)) <= (j as real) * (d / ((n - 1) as real))
  {
    var q := d / ((n - 1) as real);
    assert q >= 0.0;
    assert (j as real) * q - (i as real) * q == (j - i) as real * q;
  }

  /**
   * A linspace over a span of exactly `n` integers is the consecutive run
   * `a, a+1, …, a+n-1`: no subsampling and no repetition.
   */
  lemma {:induction false} LinspaceRun(a: int, b: int, n: nat)
    requires n >= 1 && b == a + n - 1
    ensures forall i :: 0 <= i < n ==> Linspace(a, b, n)[i] == a + i
  {
    forall i | 0 <= i < n
      ensures Linspace(a, b, n)[i] == a + i
    {
      if n >= 2 {
        var d := (n - 1) as real;
        assert (b - a) as real == d;
        assert d / d == 1.0;
        assert LinspacePoint(a, b, n, i) == (a + i) as real;
      }
      TruncOfInt(a + i);
    }
  }

  /** For `0 <= a <= b`, every truncated linspace point lies in `[a, b]`. */
  lemma {:induction false} LinspaceWithin(a: int, b: int, n: nat)
    requires 0 <= a <= b
    ensures forall i :: 0 <= i < n ==> a <= Linspace(a, b, n)[i] <= b
  {
    forall i | 0 <= i < n
      ensures a <= Linspace(a, b, n)[i] <= b
    {
      if n >= 2 {
        StepWithin((b - a) as real, n, i);
      }
      var p := LinspacePoint(a, b, n, i);
      assert a as real <= p <= b as real;
      TruncMonotone(a as real, p);
      TruncMonotone(p, b as real);
      TruncOfInt(a);
      TruncOfInt(b);
    }
  }

  /** For `a <= b` the truncated linspace is non-decreasing. */
  lemma {:induction false} LinspaceMonotone(a: int, b: int, n: nat)
    requires a <= b
    ensures forall i, j :: 0 <= i <= j < n ==> Linspace(a, b, n)[i] <= Linspace(a, b, n)[j]
  {
    forall i, j | 0 <= i <= j < n
      ensures Linspace(a, b, n)[i] <= Linspace(a, b, n)[j]
    {
      if n >= 2 {
        StepMonotone((b - a) as real, n, i, j);
      }
      TruncMonotone(LinspacePoint(a, b, n, i), LinspacePoint(a, b, n, j));
    }
  }

  /** A step `q` with `d * q == -1`, taken `x < d` times, stays in `(-1, 0]`. */
  lemma NegativeFraction(x: real, d: real, q: real)
    requires 0.0 <= x < d && d * q == -1.0
    ensures 0.0 < x * q + 1.0 && x * q <= 0.0
  {
    var y := x * q;
    assert q < 0.0;
    assert (d - x) * q < 0.0;
    assert (d - x) * q == d * q - y;
    assert -1.0 - y < 0.0;
    assert y <= 0.0;
  }

  /** Point `i` of `np.linspace(0, -1, n).astype(int)`: 0 before the last point, -1 at it. */
  lemma LinspaceToMinusOneAt(n: nat, i: nat)
    requires n >= 2 && i < n
    ensures Linspace(0, -1, n)[i] == if i < n - 1 then 0 else -1
  {
    var x: real := i as real;
    var d: real := (n - 1) as real;
    var q: real := ((-1 - 0) as real) / d;
    assert d * q == -1.0;
    assert LinspacePoint(0, -1, n, i) == x * q;
    if i < n - 1 {
      NegativeFraction(x, d, q);
      TruncAboveMinusOne(x * q);
    } else {
      assert x == d;
      assert x * q == -1.0;
      TruncOfInt(-1);
    }
  }

  /**
   * `np.linspace(0, -1, n).astype(int)` for `n >= 2`: every point but the
   * last lies in `(-1, 0]` and truncates to 0; the last is exactly -1.
   */
  lemma {:induction false} LinspaceDownToMinusOne(n: nat)
    requires n >= 2
    ensures forall i :: 0 <= i < n - 1 ==> Linspace(0, -1, n)[i] == 0
    ensures Linspace(0, -1, n)[n - 1] == -1
  {
    forall i | 0 <= i < n - 1
      ensures Linspace(0, -1, n)[i] == 0
    {
      LinspaceToMinusOneAt(n, i);
    }
    LinspaceToMinusOneAt(n, n - 1);
  }

  lemma TruncAboveMinusOne(x: real)
    requires 0.0 < x + 1.0 && x <= 0.0
    ensures Trunc(x) == 0
  {
  }
}
