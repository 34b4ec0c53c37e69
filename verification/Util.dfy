/** Failure and absence, shared by every component of the model. */
module Util {

  datatype Option<+T> = None | Some(value: T)

  datatype Result<+T, +E> = Success(value: T) | Failure(error: E)

  ghost predicate IsLeast(m: nat, s: set<nat>) {
    m in s && forall x | x in s :: m <= x
  }

  /** The smallest element of a non-empty set of table ids. */
  function MinOf(s: set<nat>): (m: nat)
    requires s != {}
    ensures m in s && forall x | x in s :: m <= x
  {
    MinExists(s);
    var m :| m in s && forall x | x in s :: m <= x;
    m
  }

  lemma {:induction false} MinExists(s: set<nat>)
    requires s != {}
    ensures exists m :: IsLeast(m, s)
  {
    var x :| x in s;
    var rest := s - {x};
    if rest == {} {
      assert s == {x} + rest == {x};
      assert IsLeast(x, s);
    } else {
      MinExists(rest);
      var m :| IsLeast(m, rest);
      LeastOfMore(x, m, rest, s);
    }
  }

  lemma LeastOfMore(x: nat, m: nat, rest: set<nat>, s: set<nat>)
    requires IsLeast(m, rest) && s == rest + {x}
    ensures IsLeast(if x <= m then x else m, s)
  {
  }

  /** A quotient and remainder are the only ones. */
  lemma RemainderOf(x: nat, n: nat, q: int, r: nat)
    requires n > 0 && r < n && x == q * n + r
    ensures x % n == r
  {
    var p := x / n - q;
    assert x == (x / n) * n + x % n;
    assert p * n == r - x % n by {
      assert (x / n - q) * n == (x / n) * n - q * n;
    }
    assert p >= 1 ==> p * n >= n;
    assert p <= -1 ==> p * n <= -(n as int);
  }

  /** Numbers less than `n` apart have different remainders. */
  lemma RemaindersDiffer(a: nat, b: nat, n: nat)
    requires n > 0 && a < b < a + n
    ensures a % n != b % n
  {
    var q, r, d := a / n, a % n, b - a;
    assert a == q * n + r;
    if r + d < n {
      RemainderOf(b, n, q, r + d);
    } else {
      assert (q + 1) * n == q * n + n;
      RemainderOf(b, n, q + 1, r + d - n);
    }
  }

  /** Reducing by a multiple of `n` first does not change the remainder. */
  lemma RemainderThroughMultiple(x: nat, range: nat, n: nat)
    requires n > 0 && range > 0 && range % n == 0
    ensures (x % range) % n == x % n
  {
    var y, k := x % range, (range / n) * (x / range);
    assert range == (range / n) * n;
    assert x == range * (x / range) + y;
    assert range * (x / range) == k * n by {
      assert ((range / n) * n) * (x / range) == ((range / n) * (x / range)) * n;
    }
    assert y == (y / n) * n + y % n;
    assert x == (k + y / n) * n + y % n by {
      assert (k + y / n) * n == k * n + (y / n) * n;
    }
    RemainderOf(x, n, k + y / n, y % n);
  }
}
