/**
 What the bit allocation is, said without its passes: a level, bits owed at it, the level below served
 first come first served in cursor order, and at most one odd bit. A receiver computes the same.
 */
module SbcGreedy {
  import opened Base
  import A = SbcAllocator

  /** The bits of an entry `need - level` above a level: none for a single bit, never more than 16. */
  function Owed(need: nat, level: int): nat {
    var height := need - level;
    if height <= 1 then 0 else if height >= 16 then 16 else height
  }

  function OwedTotal(needs: seq<nat>, level: int): nat {
    if needs == [] then 0 else OwedTotal(needs[..|needs| - 1], level) + Owed(needs[|needs| - 1], level)
  }

  /** The level is the one that just fits: everything owed at it fits the pool, and what is owed below does not. */
  predicate Fits(needs: seq<nat>, pool: nat, level: int) {
    OwedTotal(needs, level) == pool || OwedTotal(needs, level) < pool < OwedTotal(needs, level - 1)
  }

  /** From entry `k` on, with `left` bits left: each entry moves down a level if the bits for that are left. */
  predicate ServedFrom(needs: seq<nat>, level: int, base: seq<nat>, k: nat, left: nat, rest: nat)
    requires k <= |needs| == |base|
    decreases |needs| - k
  {
    if k == |needs| then left == rest
    else
      var at, below := Owed(needs[k], level), Owed(needs[k], level - 1);
      if below <= at + left then base[k] == below && ServedFrom(needs, level, base, k + 1, at + left - below, rest)
      else base[k] == at && ServedFrom(needs, level, base, k + 1, left, rest)
  }

  /** The odd bit goes to the first entry, in cursor order, below 16. */
  predicate OddBitAt(base: seq<nat>, bits: seq<nat>, odd: nat) {
    && odd < |base| && base[odd] < 16 && (forall j | 0 <= j < odd :: base[j] >= 16)
    && bits == base[odd := base[odd] + 1]
  }

  predicate SkippedAt(needs: seq<nat>, level: int, base: seq<nat>, k: nat) {
    k < |needs| == |base| && needs[k] == level + 1 && base[k] == 0
  }

  ghost predicate OddBit(needs: seq<nat>, level: int, base: seq<nat>, bits: seq<nat>) {
    && (exists odd: nat :: OddBitAt(base, bits, odd))
    && (exists k: nat :: SkippedAt(needs, level, base, k))
  }

  ghost predicate AllocatedAt(needs: seq<nat>, pool: nat, level: int, base: seq<nat>, rest: nat, bits: seq<nat>) {
    && |base| == |needs| && Fits(needs, pool, level) && OwedTotal(needs, level) <= pool && rest <= 1
    && ServedFrom(needs, level, base, 0, pool - OwedTotal(needs, level), rest)
    && (if rest == 0 then bits == base else OddBit(needs, level, base, bits))
  }

  ghost predicate IsAllocation(needs: seq<nat>, pool: nat, bits: seq<nat>) {
    exists level: int, base: seq<nat>, rest: nat :: AllocatedAt(needs, pool, level, base, rest, bits)
  }

  // The passes compute it ------------------------------------------------------------------

  lemma OwedIsShare(need: nat, level: int)
    ensures Owed(need, level) == A.Share(need, level)
    ensures Owed(need, level - 1) == Owed(need, level) + A.SliceBits(need, level)
  {}

  lemma {:induction false} OwedTotalIs(needs: seq<nat>, level: int, n: nat)
    requires n <= |needs|
    ensures OwedTotal(needs[..n], level) == A.Total(needs, level, n)
  {
    if n > 0 {
      OwedTotalIs(needs, level, n - 1);
      assert needs[..n][..n - 1] == needs[..n - 1];
      OwedIsShare(needs[n - 1], level);
    }
  }

  lemma OwedAll(needs: seq<nat>, level: int)
    ensures OwedTotal(needs, level) == A.Total(needs, level, |needs|)
  {
    OwedTotalIs(needs, level, |needs|);
    assert needs[..|needs|] == needs;
  }

  /** One entry of the first pass. */
  lemma FirstServes(needs: seq<nat>, level: int, pool: nat, k: nat)
    requires k < |needs|
    ensures var left := pool - A.Given(needs, level, pool, k);
      && left >= 0
      && A.First(needs, level, pool, k) == if A.SliceBits(needs[k], level) <= left then A.SliceBits(needs[k], level) else 0
  {}

  lemma {:induction false} FirstPassServes(needs: seq<nat>, level: int, pool: nat, k: nat)
    requires k <= |needs|
    ensures ServedFrom(needs, level, A.AfterFirst(needs, level, pool), k, pool - A.Given(needs, level, pool, k),
                       pool - A.Given(needs, level, pool, |needs|))
    decreases |needs| - k
  {
    if k < |needs| {
      FirstServes(needs, level, pool, k);
      OwedIsShare(needs[k], level);
      FirstPassServes(needs, level, pool, k + 1);
    }
  }

  lemma {:induction false} FirstBelowSixteen(bits: seq<nat>, k: nat) returns (odd: nat)
    requires k < |bits| && bits[k] < 16
    ensures odd <= k && bits[odd] < 16 && forall j | 0 <= j < odd :: bits[j] >= 16
    decreases k
  {
    if j :| 0 <= j < k && bits[j] < 16 {
      odd := FirstBelowSixteen(bits, j);
    } else {
      odd := k;
    }
  }

  lemma {:induction false} NothingBefore(bits: seq<nat>, odd: nat, n: nat)
    requires n <= odd < |bits| && forall j | 0 <= j < odd :: bits[j] >= 16
    ensures A.Topped(bits, 1, n) == 0 && (n < odd ==> A.Second(bits, 1, n) == 0)
  {
    if n > 0 {
      NothingBefore(bits, odd, n - 1);
    }
  }

  /** The second pass gives its one bit to the first entry with room. */
  lemma SecondServes(bits: seq<nat>, odd: nat)
    requires odd < |bits| && bits[odd] < 16 && forall j | 0 <= j < odd :: bits[j] >= 16
    ensures A.AfterSecond(bits, 1) == bits[odd := bits[odd] + 1]
  {
    forall k | 0 <= k < |bits|
      ensures A.Second(bits, 1, k) == if k == odd then 1 else 0
    {
      if k < odd {
        NothingBefore(bits, odd, k);
      } else {
        NothingBefore(bits, odd, odd);
        if k > odd { A.SecondPassDry(bits, 1, odd + 1, k); }
      }
    }
  }

  /** The allocation is what this module says: a level, service in cursor order, at most one odd bit. */
  lemma AllocationIsGreedy(needs: seq<nat>, pool: nat)
    requires pool <= A.MAX_BITS * |needs|
    ensures IsAllocation(needs, pool, A.Allocation(needs, pool))
  {
    A.FinalLevelBrackets(needs, pool);
    var level := A.FinalLevel(needs, pool);
    OwedAll(needs, level);
    OwedAll(needs, level - 1);
    var left := A.LeftOver(needs, pool, level);
    var base, rest := A.AfterFirst(needs, level, left), A.Rest(needs, pool, level);
    FirstPassServes(needs, level, left, 0);
    var bits := A.Allocation(needs, pool);
    A.FirstPassOneShort(needs, level, left, |needs|);
    A.SliceAddsUp(needs, level, |needs|);
    if rest == 0 {
      NoneLeft(base);
      assert bits == base;
    } else {
      var k :| 0 <= k < |needs| && A.PassedOver(needs, level, left, k);
      assert SkippedAt(needs, level, base, k);
      var odd := FirstBelowSixteen(base, k);
      SecondServes(base, odd);
      assert OddBitAt(base, bits, odd);
    }
    assert AllocatedAt(needs, pool, level, base, rest, bits);
  }

  lemma NoneLeft(bits: seq<nat>)
    ensures A.AfterSecond(bits, 0) == bits
  {
    forall k | 0 <= k < |bits|
      ensures A.Second(bits, 0, k) == 0
    {}
  }

  // There is only one ----------------------------------------------------------------------

  lemma {:induction false} LowerOwesMore(needs: seq<nat>, low: int, high: int)
    requires low <= high
    ensures OwedTotal(needs, low) >= OwedTotal(needs, high)
    ensures OwedTotal(needs, low) == OwedTotal(needs, high) ==>
            forall k | 0 <= k < |needs| :: Owed(needs[k], low) == Owed(needs[k], high)
  {
    if needs != [] {
      var front, last := needs[..|needs| - 1], needs[|needs| - 1];
      LowerOwesMore(front, low, high);
      assert Owed(last, low) >= Owed(last, high);
      assert forall k | 0 <= k < |front| :: needs[k] == front[k];
    }
  }

  lemma {:induction false} ServiceIsUnique(needs: seq<nat>, level: int, a: seq<nat>, b: seq<nat>, k: nat, left: nat, s: nat, t: nat)
    requires k <= |needs| == |a| == |b|
    requires ServedFrom(needs, level, a, k, left, s) && ServedFrom(needs, level, b, k, left, t)
    ensures s == t && a[k..] == b[k..]
    decreases |needs| - k
  {
    if k < |needs| {
      var at, below := Owed(needs[k], level), Owed(needs[k], level - 1);
      ServiceIsUnique(needs, level, a, b, k + 1, if below <= at + left then at + left - below else left, s, t);
      assert a[k..] == [a[k]] + a[k + 1..] && b[k..] == [b[k]] + b[k + 1..];
    }
  }

  /** With nothing left everybody keeps what is owed. */
  lemma {:induction false} NothingServed(needs: seq<nat>, level: int, base: seq<nat>, k: nat, rest: nat)
    requires k <= |needs| == |base| && ServedFrom(needs, level, base, k, 0, rest)
    ensures rest == 0 && forall j | k <= j < |needs| :: base[j] == Owed(needs[j], level)
    decreases |needs| - k
  {
    if k < |needs| {
      assert Owed(needs[k], level - 1) >= Owed(needs[k], level);
      NothingServed(needs, level, base, k + 1, rest);
    }
  }

  lemma OddBitIsUnique(base: seq<nat>, a: seq<nat>, b: seq<nat>, i: nat, j: nat)
    requires OddBitAt(base, a, i) && OddBitAt(base, b, j)
    ensures a == b
  {
    assert i == j;
  }

  lemma OneLevel(needs: seq<nat>, pool: nat, s: int, t: int)
    requires Fits(needs, pool, s) && Fits(needs, pool, t) && s < t
    ensures OwedTotal(needs, s) == OwedTotal(needs, t) == pool
  {
    LowerOwesMore(needs, s, t - 1);
    LowerOwesMore(needs, s, t);
  }

  lemma SameLevel(needs: seq<nat>, pool: nat, level: int, base: seq<nat>, rest: nat, a: seq<nat>,
                  base': seq<nat>, rest': nat, b: seq<nat>)
    requires AllocatedAt(needs, pool, level, base, rest, a) && AllocatedAt(needs, pool, level, base', rest', b)
    ensures a == b
  {
    ServiceIsUnique(needs, level, base, base', 0, pool - OwedTotal(needs, level), rest, rest');
    assert base[0..] == base && base'[0..] == base';
    if rest == 1 {
      var i: nat :| OddBitAt(base, a, i);
      var j: nat :| OddBitAt(base', b, j);
      OddBitIsUnique(base, a, b, i, j);
    }
  }

  lemma OtherLevel(needs: seq<nat>, pool: nat, s: int, base: seq<nat>, rest: nat, a: seq<nat>,
                   t: int, base': seq<nat>, rest': nat, b: seq<nat>)
    requires s < t && AllocatedAt(needs, pool, s, base, rest, a) && AllocatedAt(needs, pool, t, base', rest', b)
    ensures a == b
  {
    OneLevel(needs, pool, s, t);
    LowerOwesMore(needs, s, t);
    NothingServed(needs, s, base, 0, rest);
    NothingServed(needs, t, base', 0, rest');
    assert base == base';
  }

  /** Scale factors and pool determine the allocation: whoever knows them knows every width. */
  lemma AllocationIsUnique(needs: seq<nat>, pool: nat, a: seq<nat>, b: seq<nat>)
    requires IsAllocation(needs, pool, a) && IsAllocation(needs, pool, b)
    ensures a == b
  {
    var s: int, base: seq<nat>, rest: nat :| AllocatedAt(needs, pool, s, base, rest, a);
    var t: int, base': seq<nat>, rest': nat :| AllocatedAt(needs, pool, t, base', rest', b);
    if s < t {
      OtherLevel(needs, pool, s, base, rest, a, t, base', rest', b);
    } else if t < s {
      OtherLevel(needs, pool, t, base', rest', b, s, base, rest, a);
    } else {
      SameLevel(needs, pool, s, base, rest, a, base', rest', b);
    }
  }
}
