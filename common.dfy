/** Helpers shared by the puzzle models: an optional value, Python's list
    indexing and slicing rules, and sums over sequences. */
module Common {

  datatype Option<T> = None | Some(value: T)

  /** Python's `xs[i]` on a list of length n: a negative index counts from
      the end; anything outside [-n, n) raises IndexError (None here). */
  function PyIndex(n: nat, i: int): (r: Option<nat>)
    ensures r.Some? <==> -(n as int) <= i < n
    ensures r.Some? ==> r.value < n && r.value % n == i % n
    ensures r.Some? && 0 <= i ==> r.value == i
    ensures r.Some? && i < 0 ==> r.value == n + i
  {
    if 0 <= i < n then Some(i)
    else if -(n as int) <= i < 0 then Some(n + i)
    else None
  }

  /** Where a slice bound `i` lands in a sequence of length n (Python clamps
      out-of-range bounds and counts negative ones from the end). */
  function SliceBound(n: nat, i: int): (r: nat)
    ensures r <= n
    ensures 0 <= i <= n ==> r == i
    ensures -(n as int) <= i < 0 ==> r == n + i
    ensures i > n ==> r == n
    ensures i < -(n as int) ==> r == 0
  {
    if i < 0 then (if n + i < 0 then 0 else n + i)
    else if i > n then n
    else i
  }

  /** Python's `s[i:j]`. */
  function Slice<T>(s: seq<T>, i: int, j: int): (r: seq<T>)
    ensures |r| <= |s|
    ensures 0 <= i <= j <= |s| ==> r == s[i..j]
  {
    var a := SliceBound(|s|, i);
    var b := SliceBound(|s|, j);
    if a <= b then s[a..b] else []
  }

  function Sum(s: seq<int>): int
  {
    if s == [] then 0 else Sum(s[..|s| - 1]) + s[|s| - 1]
  }

  lemma {:induction false} SumAppend(s: seq<int>, t: seq<int>)
    ensures Sum(s + t) == Sum(s) + Sum(t)
  {
    if t == [] {
      assert s + t == s;
    } else {
      assert (s + t)[..|s + t| - 1] == s + t[..|t| - 1];
      SumAppend(s, t[..|t| - 1]);
    }
  }

  lemma {:induction false} SumNonNegative(s: seq<int>)
    requires forall i :: 0 <= i < |s| ==> s[i] >= 0
    ensures Sum(s) >= 0
  {
    if s != [] {
      SumNonNegative(s[..|s| - 1]);
    }
  }

  /** Ten to the power n. */
  function Pow10(n: nat): (r: nat)
    ensures r >= 1
  {
    if n == 0 then 1 else 10 * Pow10(n - 1)
  }

  function Abs(x: int): (r: nat)
    ensures r == x || r == -x
  {
    if x < 0 then -x else x
  }

  function Min(a: int, b: int): (r: int)
    ensures r <= a && r <= b && (r == a || r == b)
  {
    if a <= b then a else b
  }

  function Max(a: int, b: int): (r: int)
    ensures r >= a && r >= b && (r == a || r == b)
  {
    if a >= b then a else b
  }

  lemma MulAtLeast(n: int, d: int)
    requires n > 0 && d >= 1
    ensures n * d >= n
  {
  }

  /** Division and remainder are determined by a = n * q + m with 0 <= m < n. */
  lemma ModUnique(a: int, n: int, q: int, m: int)
    requires n > 0 && 0 <= m < n && a == n * q + m
    ensures a / n == q && a % n == m
  {
    var q', m' := a / n, a % n;
    assert a == n * q' + m';
    if q' > q {
      MulAtLeast(n, q' - q);
      assert false;
    } else if q' < q {
      MulAtLeast(n, q - q');
      assert false;
    }
  }

  /** Adding a multiple of n does not change the remainder modulo n. */
  lemma ModPeriod(x: int, n: int, q: int)
    requires n > 0
    ensures (x + n * q) % n == x % n
  {
    assert x + n * q == n * (x / n + q) + x % n;
    ModUnique(x + n * q, n, x / n + q, x % n);
  }

  /** `deque.rotate(k)` (and `xs[-k:] + xs[:-k]` for 0 < k < len): every
      element moves k places to the right, wrapping around. */
  function RotateRight<T>(s: seq<T>, k: int): (r: seq<T>)
    ensures |r| == |s|
  {
    if |s| == 0 then s
    else
      var cut := |s| - k % |s|;
      s[cut..] + s[..cut]
  }

  /** Rotation keeps every element, with its multiplicity. */
  lemma RotateRightPermutes<T>(s: seq<T>, k: int)
    ensures multiset(RotateRight(s, k)) == multiset(s)
  {
    if |s| > 0 {
      var cut := |s| - k % |s|;
      assert s == s[..cut] + s[cut..];
    }
  }

  lemma RotateRightAt<T>(s: seq<T>, k: int, i: int)
    requires 0 <= i < |s|
    ensures RotateRight(s, k)[i] == s[(i - k) % |s|]
  {
    var n := |s|;
    var kk := k % n;
    ModUnique(k, n, k / n, kk);
    if i < kk {
      ModUnique(i - k, n, -(k / n) - 1, n - kk + i);
    } else {
      ModUnique(i - k, n, -(k / n), i - kk);
    }
  }

  /** The remainder of -k in terms of the remainder of k. */
  lemma NegMod(k: int, n: int)
    requires n > 0
    ensures (-k) % n == if k % n == 0 then 0 else n - k % n
  {
    var q, m := k / n, k % n;
    assert k == n * q + m;
    if m == 0 {
      assert -k == n * (-q);
      ModUnique(-k, n, -q, 0);
    } else {
      assert -k == n * (-q - 1) + (n - m);
      ModUnique(-k, n, -q - 1, n - m);
    }
  }

  /** Rotating back by the same amount restores the sequence. */
  lemma RotateRightInverse<T>(s: seq<T>, k: int)
    ensures RotateRight(RotateRight(s, k), -k) == s
  {
    var n := |s|;
    if n > 0 {
      var kk := k % n;
      NegMod(k, n);
      var r := RotateRight(s, k);
      assert r == s[n - kk..] + s[..n - kk];
      if kk == 0 {
        assert r == s;
        assert RotateRight(r, -k) == r[n..] + r[..n];
      } else {
        assert RotateRight(r, -k) == r[kk..] + r[..kk];
        assert r[kk..] == s[..n - kk];
        assert r[..kk] == s[n - kk..];
        assert s == s[..n - kk] + s[n - kk..];
      }
    }
  }

  /** The same with the two rotations the other way round. */
  lemma RotateLeftInverse<T>(s: seq<T>, k: int)
    ensures RotateRight(RotateRight(s, -k), k) == s
  {
    var n := |s|;
    if n > 0 {
      var kk := k % n;
      NegMod(k, n);
      var r := RotateRight(s, -k);
      if kk == 0 {
        assert r == s[n..] + s[..n];
        assert r == s;
        assert RotateRight(r, k) == r[n..] + r[..n];
      } else {
        assert r == s[kk..] + s[..kk];
        assert RotateRight(r, k) == r[n - kk..] + r[..n - kk];
        assert r[n - kk..] == s[..kk];
        assert r[..n - kk] == s[kk..];
        assert s == s[..kk] + s[kk..];
      }
    }
  }

  /** A nonempty set of integers has an element. */
  lemma HasElement(s: set<int>)
    requires s != {}
    ensures exists x :: x in s
  {
    if forall x :: x !in s {
      assert false;
    }
  }
}
