/** Values shared by every component of the model. */
module Base {
  /** One octet, as an integer; bit-level code converts it where it needs to. */
  type Byte = b: int | 0 <= b < 256

  datatype Option<+T> = None | Some(value: T)

  datatype Result<+T, +E> = Ok(value: T) | Err(error: E)

  const U32_LIMIT: int := 0x1_0000_0000

  function Min(a: int, b: int): int {
    if a < b then a else b
  }

  function Max(a: int, b: int): int {
    if a < b then b else a
  }

  /** `n` zero bytes. */
  function Zeros(n: nat): (z: seq<Byte>)
    ensures |z| == n && forall i | 0 <= i < n :: z[i] == 0
  {
    seq(n, _ => 0)
  }

  lemma Assoc<T>(a: seq<T>, b: seq<T>, c: seq<T>)
    ensures (a + b) + c == a + (b + c)
  {
  }

  lemma SplitLast<T>(s: seq<T>)
    requires s != []
    ensures s[..|s| - 1] + [s[|s| - 1]] == s
  {
  }

  /** A state machine's state after the first `n` inputs. */
  function Fold<S, T>(step: (S, T) -> S, state: S, inputs: seq<T>, n: nat): S
    requires n <= |inputs|
  {
    if n == 0 then state else step(Fold(step, state, inputs, n - 1), inputs[n - 1])
  }

  lemma {:induction false} FoldPrefix<S, T>(step: (S, T) -> S, state: S, a: seq<T>, b: seq<T>, n: nat)
    requires n <= |a|
    ensures Fold(step, state, a + b, n) == Fold(step, state, a, n)
  {
    if n > 0 {
      FoldPrefix(step, state, a, b, n - 1);
    }
  }

  /** Inputs may be taken in two parts. */
  lemma {:induction false} FoldConcat<S, T>(step: (S, T) -> S, state: S, a: seq<T>, b: seq<T>, n: nat)
    requires n <= |b|
    ensures Fold(step, state, a + b, |a| + n) == Fold(step, Fold(step, state, a, |a|), b, n)
    decreases n
  {
    if n == 0 {
      FoldPrefix(step, state, a, b, |a|);
    } else {
      FoldConcat(step, state, a, b, n - 1);
      assert (a + b)[|a| + n - 1] == b[n - 1];
    }
  }

  lemma FoldThreeParts<S, T>(step: (S, T) -> S, state: S, a: seq<T>, m: seq<T>, b: seq<T>)
    ensures Fold(step, state, a + m + b, |a + m + b|)
         == Fold(step, Fold(step, Fold(step, state, a, |a|), m, |m|), b, |b|)
  {
    FoldConcat(step, state, a + m, b, |b|);
    FoldConcat(step, state, a, m, |m|);
  }

  lemma {:induction false} FoldKeeps<S(!new), T(!new)>(step: (S, T) -> S, good: S -> bool, state: S, inputs: seq<T>, n: nat)
    requires n <= |inputs| && good(state) && forall s, t | good(s) :: good(step(s, t))
    ensures good(Fold(step, state, inputs, n))
  {
    if n > 0 {
      FoldKeeps(step, good, state, inputs, n - 1);
    }
  }

  ghost predicate TellsApart<S, T>(step: (S, T) -> S, s: S, t: S, input: T) {
    step(s, input) == step(t, input) ==> s == t
  }

  /** A machine whose every step tells good states apart tells them apart over any inputs. */
  lemma {:induction false} FoldInjective<S(!new), T(!new)>(
      step: (S, T) -> S, good: S -> bool, s: S, t: S, inputs: seq<T>, n: nat)
    requires forall s, t | good(s) :: good(step(s, t))
    requires forall s, t, i | good(s) && good(t) :: TellsApart(step, s, t, i)
    requires n <= |inputs| && good(s) && good(t) && Fold(step, s, inputs, n) == Fold(step, t, inputs, n)
    ensures s == t
  {
    if n > 0 {
      FoldKeeps(step, good, s, inputs, n - 1);
      FoldKeeps(step, good, t, inputs, n - 1);
      assert TellsApart(step, Fold(step, s, inputs, n - 1), Fold(step, t, inputs, n - 1), inputs[n - 1]);
      FoldInjective(step, good, s, t, inputs, n - 1);
    }
  }

  lemma FoldThreePartsOf<S, T>(step: (S, T) -> S, state: S, a: seq<T>, m: seq<T>, b: seq<T>, all: seq<T>, c: S)
    requires all == a + m + b && c == Fold(step, state, a, |a|)
    ensures Fold(step, state, all, |all|) == Fold(step, Fold(step, c, m, |m|), b, |b|)
  {
    FoldThreeParts(step, state, a, m, b);
  }
}
