/** Shifts and low bits of natural numbers, one bit at a time. */
module BitMath {
  function Pow2(n: nat): (p: nat)
    ensures p > 0
  {
    if n == 0 then 1 else 2 * Pow2(n - 1)
  }

  lemma {:induction false} Pow2Monotone(a: nat, b: nat)
    requires a <= b
    ensures Pow2(a) <= Pow2(b)
    decreases b
  {
    if a < b {
      Pow2Monotone(a, b - 1);
    }
  }

  function Shl(x: nat, n: nat): nat
    decreases n, x
  {
    if n == 0 then x else 2 * Shl(x, n - 1)
  }

  function Shr(x: nat, n: nat): nat
    decreases n, x
  {
    if n == 0 then x else Shr(x / 2, n - 1)
  }

  /** The `n` low bits of `x`. */
  function Low(x: nat, n: nat): nat
    decreases n, x
  {
    if n == 0 then 0 else 2 * Low(x / 2, n - 1) + x % 2
  }

  lemma {:induction false} LowBelow(x: nat, n: nat)
    ensures Low(x, n) < Pow2(n)
    decreases n
  {
    if n > 0 {
      LowBelow(x / 2, n - 1);
    }
  }

  /** Exactly the numbers below `2^n` are their own `n` low bits. */
  lemma {:induction false} LowOfSmall(x: nat, n: nat)
    ensures Low(x, n) == x <==> x < Pow2(n)
    decreases n
  {
    if n > 0 {
      LowOfSmall(x / 2, n - 1);
    }
  }

  lemma {:induction false} LowOfLow(x: nat, m: nat, n: nat)
    requires n <= m
    ensures Low(Low(x, m), n) == Low(x, n)
    decreases n
  {
    if n > 0 {
      assert Low(x, m) / 2 == Low(x / 2, m - 1) && Low(x, m) % 2 == x % 2;
      LowOfLow(x / 2, m - 1, n - 1);
    }
  }

  /** What a shift followed by a cut to `w` bits keeps. */
  lemma {:induction false} LowOfShl(x: nat, n: nat, low: nat, w: nat)
    requires n <= w && low < Pow2(n)
    ensures Low(Shl(x, n) + low, w) == Shl(Low(x, w - n), n) + low
    decreases n
  {
    if n > 0 {
      assert (Shl(x, n) + low) / 2 == Shl(x, n - 1) + low / 2 && (Shl(x, n) + low) % 2 == low % 2;
      LowOfShl(x, n - 1, low / 2, w - 1);
    }
  }

  lemma {:induction false} ShrBelow(x: nat, a: nat, b: nat)
    requires x < Pow2(a + b)
    ensures Shr(x, b) < Pow2(a)
    decreases b
  {
    if b > 0 {
      ShrBelow(x / 2, a, b - 1);
    }
  }

  lemma {:induction false} ShlBelow(x: nat, a: nat, low: nat, b: nat)
    requires x < Pow2(a) && low < Pow2(b)
    ensures Shl(x, b) + low < Pow2(a + b)
    decreases b
  {
    if b > 0 {
      ShlBelow(x, a, low / 2, b - 1);
    }
  }

  lemma {:induction false} LowAtMost(x: nat, n: nat)
    ensures Low(x, n) <= x
    decreases n
  {
    if n > 0 {
      LowAtMost(x / 2, n - 1);
    }
  }

  lemma {:induction false} ShrOfLow(x: nat, k: nat, w: nat)
    ensures Shr(Low(x, w + k), k) == Low(Shr(x, k), w)
    decreases k
  {
    if k > 0 {
      assert Low(x, w + k) / 2 == Low(x / 2, w + k - 1);
      ShrOfLow(x / 2, k - 1, w);
    }
  }

  lemma {:induction false} ShrOfShl(x: nat, low: nat, k: nat)
    requires low < Pow2(k)
    ensures Shr(Shl(x, k) + low, k) == x
    decreases k
  {
    if k > 0 {
      assert (Shl(x, k) + low) / 2 == Shl(x, k - 1) + low / 2;
      ShrOfShl(x, low / 2, k - 1);
    }
  }

  lemma {:induction false} ShrAtLeast(x: nat, w: nat, k: nat)
    requires x >= Pow2(w + k)
    ensures Shr(x, k) >= Pow2(w)
    decreases k
  {
    if k > 0 {
      ShrAtLeast(x / 2, w, k - 1);
    }
  }
}
