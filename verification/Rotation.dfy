/** Taking turns by a shared 64-bit counter, reduced to the number of those who take turns. */
module Rotation {
  const WRAP: nat := 0x1_0000_0000_0000_0000

  type Counter = c: nat | c < WRAP

  function Next(c: Counter): Counter
  {
    (c + 1) % WRAP
  }

  function Plus(c: Counter, k: nat): Counter
  {
    (c + k) % WRAP
  }

  /** Counting around a ring of `n`. */
  function Around(i: nat, n: nat): (place: nat)
    requires n > 0
    ensures place < n
  {
    i % n
  }

  /** Whose turn it is `k` steps after the counter stood at `c`. */
  function Turn(c: Counter, n: nat, k: nat): (turn: nat)
    requires n > 0
    ensures turn < n
  {
    Around(Plus(c, k), n)
  }

  ghost predicate HasTurn(c: Counter, n: nat, i: nat)
    requires n > 0
  {
    exists k: nat :: k < n && Turn(c, n, k) == i
  }

  /** Everyone has a turn within `n` steps. */
  ghost predicate Fair(c: Counter, n: nat)
    requires n > 0
  {
    forall i :: 0 <= i < n ==> HasTurn(c, n, i)
  }

  /** The counter does not wrap on the way, or wraps where a round ends. */
  predicate Smooth(c: Counter, n: nat)
    requires n > 0
  {
    c + n <= WRAP || WRAP % n == 0
  }

  lemma PlusNone(c: Counter)
    ensures Plus(c, 0) == c
  {
  }

  lemma PlusOne(c: Counter, k: nat)
    ensures Next(Plus(c, k)) == Plus(c, k + 1)
  {
  }

  // ---------------------------------------------------------------- remainders

  lemma Remainder(a: int, n: nat, q: int, r: nat)
    requires r < n && a == q * n + r
    ensures a % n == r
  {
    var q', r' := a / n, a % n;
    assert a == q' * n + r';
    if q' < q {
      assert (q - q') * n >= n by { Grows(q - q', n); }
    } else if q < q' {
      assert (q' - q) * n >= n by { Grows(q' - q, n); }
    }
  }

  lemma Grows(k: int, n: nat)
    requires k >= 1
    ensures k * n >= n
  {
    assert k * n == (k - 1) * n + n;
    assert (k - 1) * n >= 0;
  }

  /** Remainders that agree belong to numbers a multiple apart. */
  lemma NearRemaindersDiffer(a: nat, b: nat, n: nat)
    requires a < b < a + n
    ensures a % n != b % n
  {
    if a % n == b % n {
      assert b - a == (b / n - a / n) * n;
      if b / n > a / n { Grows(b / n - a / n, n); }
      assert false;
    }
  }

  /** A number a multiple of `n` less has the same remainder. */
  lemma LessMultiple(a: nat, m: nat, n: nat)
    requires n > 0 && m % n == 0 && m <= a
    ensures (a - m) % n == a % n
  {
    Remainder(a - m, n, a / n - m / n, a % n);
  }

  lemma {:induction false} ReachesRemainder(c: nat, n: nat, i: nat) returns (k: nat)
    requires i < n
    ensures k < n && (c + k) % n == i
  {
    var r := c % n;
    if r <= i {
      k := i - r;
      Remainder(c + k, n, c / n, i);
    } else {
      k := n + i - r;
      Remainder(c + k, n, c / n + 1, i);
    }
  }

  // ---------------------------------------------------------------- turns

  lemma SmoothTurn(c: Counter, n: nat, k: nat)
    requires 0 < n <= WRAP && Smooth(c, n) && k < n
    ensures Turn(c, n, k) == (c + k) % n
  {
    if c + k < WRAP {
      Remainder(c + k, WRAP, 0, c + k);
    } else {
      Remainder(c + k, WRAP, 1, c + k - WRAP);
      LessMultiple(c + k, WRAP, n);
    }
  }

  /** On a smooth stretch no one has two turns. */
  lemma TurnsDiffer(c: Counter, n: nat, j: nat, k: nat)
    requires 0 < n <= WRAP && Smooth(c, n) && j < k < n
    ensures Turn(c, n, j) != Turn(c, n, k)
  {
    SmoothTurn(c, n, j);
    SmoothTurn(c, n, k);
    NearRemaindersDiffer(c + j, c + k, n);
  }

  /** The one left out when the counter wraps inside a round. */
  function LeftOut(c: Counter, n: nat): (i: nat)
    requires 0 < n && c + n > WRAP && WRAP % n != 0
    ensures i < n
  {
    var before := WRAP - c;
    if WRAP % n + before >= n then WRAP % n else n - before
  }

  lemma LeftOutHasNoTurn(c: Counter, n: nat, k: nat)
    requires 0 < n <= WRAP && !Smooth(c, n) && k < n
    ensures Turn(c, n, k) != LeftOut(c, n)
  {
    var before := WRAP - c;
    var w, i := WRAP % n, LeftOut(c, n);
    if k < before {
      Remainder(c + k, WRAP, 0, c + k);
      var j := before - k;
      assert WRAP == WRAP / n * n + w;
      if w + before >= n {
        NearRemaindersDiffer(c + k, WRAP, n);
      } else if j <= w {
        Remainder(c + k, n, WRAP / n, w - j);
        assert Turn(c, n, k) == w - j < n - before;
      } else {
        assert c + k == (WRAP / n - 1) * n + (n + w - j);
        Remainder(c + k, n, WRAP / n - 1, n + w - j);
      }
    } else {
      Remainder(c + k, WRAP, 1, k - before);
      Remainder(k - before, n, 0, k - before);
    }
  }

  /** Everyone has a turn exactly when the counter does not wrap inside the round. */
  lemma FairIff(c: Counter, n: nat)
    requires 0 < n <= WRAP
    ensures Fair(c, n) <==> Smooth(c, n)
  {
    if Smooth(c, n) {
      forall i | 0 <= i < n
        ensures HasTurn(c, n, i)
      {
        var k := ReachesRemainder(c, n, i);
        SmoothTurn(c, n, k);
      }
    } else {
      var i := LeftOut(c, n);
      forall k: nat | k < n
        ensures Turn(c, n, k) != i
      {
        LeftOutHasNoTurn(c, n, k);
      }
      assert !HasTurn(c, n, i);
    }
  }
}
