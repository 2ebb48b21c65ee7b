/**
 The SNR bit allocation of gui/Sbc/DualShock4SbcEncoder.cs. Entries are in cursor order: the
 two channels of band 0, then those of band 1, and so on.
 */
module SbcAllocator {
  import opened Base

  const CHANNELS := 2
  const SUBBANDS := 8
  const ENTRIES := 16
  const MAX_BITS := 16

  // The closed form ----------------------------------------------------------------------

  /** What an entry of scale factor `need` holds once everything above `slice` is covered. */
  function Share(need: nat, slice: int): (bits: nat) {
    if need < slice + 2 then 0 else Min(need - slice, MAX_BITS)
  }

  /** What the search loop counts for an entry at `slice`. */
  function SliceBits(need: nat, slice: int): nat {
    if need > slice + 1 && need < slice + 16 then 1 else if need == slice + 1 then 2 else 0
  }

  function Total(needs: seq<nat>, slice: int, n: nat): nat
    requires n <= |needs|
  {
    if n == 0 then 0 else Total(needs, slice, n - 1) + Share(needs[n - 1], slice)
  }

  function SliceTotal(needs: seq<nat>, slice: int, n: nat): nat
    requires n <= |needs|
  {
    if n == 0 then 0 else SliceTotal(needs, slice, n - 1) + SliceBits(needs[n - 1], slice)
  }

  function Sum(bits: seq<nat>, n: nat): nat
    requires n <= |bits|
  {
    if n == 0 then 0 else Sum(bits, n - 1) + bits[n - 1]
  }

  /** The search loop's running count is the closed form: one slice down adds what it counted. */
  lemma {:induction false} SliceAddsUp(needs: seq<nat>, slice: int, n: nat)
    requires n <= |needs|
    ensures Total(needs, slice - 1, n) == Total(needs, slice, n) + SliceTotal(needs, slice, n)
  {
    if n > 0 {
      SliceAddsUp(needs, slice, n - 1);
    }
  }

  lemma {:induction false} FullAtTheBottom(needs: seq<nat>, slice: int, n: nat)
    requires n <= |needs| && slice <= -MAX_BITS
    ensures Total(needs, slice, n) == MAX_BITS * n
  {
    if n > 0 {
      FullAtTheBottom(needs, slice, n - 1);
    }
  }

  lemma {:induction false} NothingAboveThePeak(needs: seq<nat>, slice: int, n: nat)
    requires n <= |needs| && forall k | 0 <= k < n :: needs[k] <= slice
    ensures Total(needs, slice, n) == 0
  {
    if n > 0 {
      NothingAboveThePeak(needs, slice, n - 1);
    }
  }

  function Peak(needs: seq<nat>, n: nat): (max: nat)
    requires n <= |needs|
    ensures forall k | 0 <= k < n :: needs[k] <= max
    ensures max == 0 || exists k | 0 <= k < n :: needs[k] == max
  {
    if n == 0 then 0 else Max(Peak(needs, n - 1), needs[n - 1])
  }

  // The search ---------------------------------------------------------------------------

  /** Where the search that starts at `slice` stops. */
  function Level(needs: seq<nat>, bitpool: nat, slice: int): int
    requires bitpool <= MAX_BITS * |needs|
    decreases slice + MAX_BITS
  {
    var below := Total(needs, slice - 1, |needs|);
    if below < bitpool then
      assert slice + MAX_BITS > 0 by {
        if slice - 1 <= -MAX_BITS { FullAtTheBottom(needs, slice - 1, |needs|); }
      }
      Level(needs, bitpool, slice - 1)
    else if below == bitpool then slice - 1
    else slice
  }

  function FinalLevel(needs: seq<nat>, bitpool: nat): int
    requires bitpool <= MAX_BITS * |needs|
  {
    Level(needs, bitpool, Peak(needs, |needs|))
  }

  /** The search stops where the pool is used up exactly, or the next slice would overdraw it. */
  predicate Brackets(needs: seq<nat>, bitpool: nat, slice: int) {
    Total(needs, slice, |needs|) == bitpool
    || Total(needs, slice, |needs|) < bitpool < Total(needs, slice - 1, |needs|)
  }

  lemma {:induction false} LevelBrackets(needs: seq<nat>, bitpool: nat, slice: int)
    requires bitpool <= MAX_BITS * |needs| && Total(needs, slice, |needs|) <= bitpool
    ensures Brackets(needs, bitpool, Level(needs, bitpool, slice))
    decreases slice + MAX_BITS
  {
    if Total(needs, slice - 1, |needs|) < bitpool {
      if slice - 1 <= -MAX_BITS {
        FullAtTheBottom(needs, slice - 1, |needs|);
        assert false;
      }
      LevelBrackets(needs, bitpool, slice - 1);
    }
  }

  lemma FinalLevelBrackets(needs: seq<nat>, bitpool: nat)
    requires bitpool <= MAX_BITS * |needs|
    ensures Brackets(needs, bitpool, FinalLevel(needs, bitpool))
  {
    NothingAboveThePeak(needs, Peak(needs, |needs|), |needs|);
    LevelBrackets(needs, bitpool, Peak(needs, |needs|));
  }

  // The two distribution passes ----------------------------------------------------------

  /** What the first pass gives entry `k` out of `pool` bits left over at `slice`. */
  function First(needs: seq<nat>, slice: int, pool: nat, k: nat): nat
    requires k < |needs|
    decreases |needs|, k, 1
  {
    var room := pool - Given(needs, slice, pool, k);
    var bits := Share(needs[k], slice);
    if room > 0 && 2 <= bits < MAX_BITS then 1
    else if room > 1 && !(2 <= bits < MAX_BITS) && needs[k] == slice + 1 then 2
    else 0
  }

  /** What the first pass has given the first `n` entries. */
  function Given(needs: seq<nat>, slice: int, pool: nat, n: nat): (bits: nat)
    requires n <= |needs|
    ensures bits <= pool
    decreases |needs|, n, 0
  {
    if n == 0 then 0
    else Given(needs, slice, pool, n - 1) + First(needs, slice, pool, n - 1)
  }

  /** What the second pass gives entry `k` out of `pool` bits. */
  function Second(bits: seq<nat>, pool: nat, k: nat): nat
    requires k < |bits|
    decreases |bits|, k, 1
  {
    if Topped(bits, pool, k) < pool && bits[k] < MAX_BITS then 1 else 0
  }

  function Topped(bits: seq<nat>, pool: nat, n: nat): (given: nat)
    requires n <= |bits|
    ensures given <= pool
    decreases |bits|, n, 0
  {
    if n == 0 then 0 else Topped(bits, pool, n - 1) + Second(bits, pool, n - 1)
  }

  /** The first `m` entries when the first pass has come as far as entry `n`. */
  function FirstUpTo(needs: seq<nat>, slice: int, pool: nat, n: nat, m: nat): (bits: seq<nat>)
    requires m <= |needs|
    ensures |bits| == m
    ensures forall k | 0 <= k < m ::
      bits[k] == Share(needs[k], slice) + if k < n then First(needs, slice, pool, k) else 0
  {
    if m == 0 then []
    else
      var extra := if m <= n then First(needs, slice, pool, m - 1) else 0;
      FirstUpTo(needs, slice, pool, n, m - 1) + [Share(needs[m - 1], slice) + extra]
  }

  function DuringFirst(needs: seq<nat>, slice: int, pool: nat, n: nat): (bits: seq<nat>)
    ensures |bits| == |needs|
  {
    FirstUpTo(needs, slice, pool, n, |needs|)
  }

  function AfterFirst(needs: seq<nat>, slice: int, pool: nat): (bits: seq<nat>)
    ensures |bits| == |needs|
  {
    DuringFirst(needs, slice, pool, |needs|)
  }

  function SecondUpTo(bits: seq<nat>, pool: nat, n: nat, m: nat): (r: seq<nat>)
    requires m <= |bits|
    ensures |r| == m
    ensures forall k | 0 <= k < m :: r[k] == bits[k] + if k < n then Second(bits, pool, k) else 0
  {
    if m == 0 then []
    else SecondUpTo(bits, pool, n, m - 1) + [bits[m - 1] + if m <= n then Second(bits, pool, m - 1) else 0]
  }

  function DuringSecond(bits: seq<nat>, pool: nat, n: nat): (r: seq<nat>)
    ensures |r| == |bits|
  {
    SecondUpTo(bits, pool, n, |bits|)
  }

  function AfterSecond(bits: seq<nat>, pool: nat): (r: seq<nat>)
    ensures |r| == |bits|
  {
    DuringSecond(bits, pool, |bits|)
  }

  /** The bits the search leaves to distribute. */
  function LeftOver(needs: seq<nat>, bitpool: nat, slice: int): int {
    bitpool - Total(needs, slice, |needs|)
  }

  /** What is left once the first pass is done. */
  function Rest(needs: seq<nat>, bitpool: nat, slice: int): (rest: nat)
    requires LeftOver(needs, bitpool, slice) >= 0
  {
    var pool := LeftOver(needs, bitpool, slice);
    pool - Given(needs, slice, pool, |needs|)
  }

  function Distribution(needs: seq<nat>, bitpool: nat, slice: int): (bits: seq<nat>)
    requires LeftOver(needs, bitpool, slice) >= 0
    ensures |bits| == |needs|
  {
    AfterSecond(AfterFirst(needs, slice, LeftOver(needs, bitpool, slice)), Rest(needs, bitpool, slice))
  }

  function Allocation(needs: seq<nat>, bitpool: nat): seq<nat>
    requires bitpool <= MAX_BITS * |needs|
  {
    FinalLevelBrackets(needs, bitpool);
    Distribution(needs, bitpool, FinalLevel(needs, bitpool))
  }

  /** Once the pool is used up nobody gets anything. */
  lemma {:induction false} FirstPassDry(needs: seq<nat>, slice: int, pool: nat, n: nat, k: nat)
    requires n <= k <= |needs| && (n == |needs| || Given(needs, slice, pool, n) == pool)
    ensures Given(needs, slice, pool, k) == Given(needs, slice, pool, n)
    ensures k < |needs| ==> First(needs, slice, pool, k) == 0
    decreases k
  {
    if n < k {
      FirstPassDry(needs, slice, pool, n, k - 1);
    }
  }

  lemma {:induction false} SecondPassDry(bits: seq<nat>, pool: nat, n: nat, k: nat)
    requires n <= k <= |bits| && (n == |bits| || Topped(bits, pool, n) == pool)
    ensures Topped(bits, pool, k) == Topped(bits, pool, n)
    ensures k < |bits| ==> Second(bits, pool, k) == 0
    decreases k
  {
    if n < k {
      SecondPassDry(bits, pool, n, k - 1);
    }
  }

  /** So the first pass may stop there. */
  lemma FirstPassDone(needs: seq<nat>, slice: int, pool: nat, n: nat)
    requires n <= |needs| && (n == |needs| || Given(needs, slice, pool, n) == pool)
    ensures DuringFirst(needs, slice, pool, n) == AfterFirst(needs, slice, pool)
    ensures Given(needs, slice, pool, |needs|) == Given(needs, slice, pool, n)
  {
    forall k | n <= k < |needs|
      ensures First(needs, slice, pool, k) == 0
    {
      FirstPassDry(needs, slice, pool, n, k);
    }
    FirstPassDry(needs, slice, pool, n, |needs|);
  }

  lemma SecondPassDone(bits: seq<nat>, pool: nat, n: nat)
    requires n <= |bits| && (n == |bits| || Topped(bits, pool, n) == pool)
    ensures DuringSecond(bits, pool, n) == AfterSecond(bits, pool)
    ensures Topped(bits, pool, |bits|) == Topped(bits, pool, n)
  {
    forall k | n <= k < |bits|
      ensures Second(bits, pool, k) == 0
    {
      SecondPassDry(bits, pool, n, k);
    }
    SecondPassDry(bits, pool, n, |bits|);
  }

  lemma DuringFirstStep(needs: seq<nat>, slice: int, pool: nat, n: nat)
    requires n < |needs|
    ensures var during, share := DuringFirst(needs, slice, pool, n), Share(needs[n], slice);
      during[n] == share &&
      DuringFirst(needs, slice, pool, n + 1) == during[n := share + First(needs, slice, pool, n)]
  {}

  lemma DuringSecondStep(bits: seq<nat>, pool: nat, n: nat)
    requires n < |bits|
    ensures var during := DuringSecond(bits, pool, n);
      during[n] == bits[n] && DuringSecond(bits, pool, n + 1) == during[n := bits[n] + Second(bits, pool, n)]
  {}

  // What the passes achieve --------------------------------------------------------------

  lemma {:induction false} FirstSums(needs: seq<nat>, slice: int, pool: nat, n: nat)
    requires n <= |needs|
    ensures Sum(AfterFirst(needs, slice, pool), n) == Total(needs, slice, n) + Given(needs, slice, pool, n)
  {
    if n > 0 {
      FirstSums(needs, slice, pool, n - 1);
    }
  }

  lemma {:induction false} SecondSums(bits: seq<nat>, pool: nat, n: nat)
    requires n <= |bits|
    ensures Sum(AfterSecond(bits, pool), n) == Sum(bits, n) + Topped(bits, pool, n)
  {
    if n > 0 {
      SecondSums(bits, pool, n - 1);
    }
  }

  /** An entry that needed two bits when only one was left. */
  predicate PassedOver(needs: seq<nat>, slice: int, pool: nat, k: nat) {
    k < |needs| && needs[k] == slice + 1 && First(needs, slice, pool, k) == 0
  }

  /** The first pass serves everyone, runs dry, or is one bit short with someone passed over. */
  lemma {:induction false} FirstPassOneShort(needs: seq<nat>, slice: int, pool: nat, n: nat)
    requires n <= |needs|
    ensures Given(needs, slice, pool, n) == SliceTotal(needs, slice, n)
         || Given(needs, slice, pool, n) == pool
         || (Given(needs, slice, pool, n) == pool - 1 && exists k | 0 <= k < n :: PassedOver(needs, slice, pool, k))
  {
    if n > 0 {
      FirstPassOneShort(needs, slice, pool, n - 1);
      assert PassedOver(needs, slice, pool, n - 1) <==>
        needs[n - 1] == slice + 1 && First(needs, slice, pool, n - 1) == 0;
    }
  }

  /** The second pass hands out a single bit when any entry before `n` is below the maximum. */
  lemma {:induction false} SecondPassFindsRoom(bits: seq<nat>, k: nat, n: nat)
    requires k < n <= |bits| && bits[k] < MAX_BITS
    ensures Topped(bits, 1, n) == 1
  {
    if k < n - 1 {
      SecondPassFindsRoom(bits, k, n - 1);
    }
  }

  /** After the first pass at most one bit is left, and some entry `k` has room for it. */
  lemma FirstPassSuffices(needs: seq<nat>, bitpool: nat, slice: int) returns (k: nat)
    requires Brackets(needs, bitpool, slice)
    ensures Rest(needs, bitpool, slice) <= 1
    ensures Rest(needs, bitpool, slice) == 1 ==>
      k < |needs| && AfterFirst(needs, slice, LeftOver(needs, bitpool, slice))[k] < MAX_BITS
  {
    var pool := LeftOver(needs, bitpool, slice);
    k := 0;
    FirstPassOneShort(needs, slice, pool, |needs|);
    SliceAddsUp(needs, slice, |needs|);
    if Rest(needs, bitpool, slice) != 0 {
      k :| 0 <= k < |needs| && PassedOver(needs, slice, pool, k);
      assert AfterFirst(needs, slice, pool)[k] == 0;
    }
  }

  lemma DistributionUsesWholePool(needs: seq<nat>, bitpool: nat, slice: int)
    requires Brackets(needs, bitpool, slice)
    ensures Sum(Distribution(needs, bitpool, slice), |needs|) == bitpool
  {
    var k := FirstPassSuffices(needs, bitpool, slice);
    var pool := LeftOver(needs, bitpool, slice);
    var bits, rest := AfterFirst(needs, slice, pool), Rest(needs, bitpool, slice);
    FirstSums(needs, slice, pool, |needs|);
    SecondSums(bits, rest, |bits|);
    if rest == 1 {
      SecondPassFindsRoom(bits, k, |bits|);
    }
  }

  /** The allocation uses up the pool exactly, for every pool the entries can hold. */
  lemma AllocationUsesWholePool(needs: seq<nat>, bitpool: nat)
    requires bitpool <= MAX_BITS * |needs|
    ensures |Allocation(needs, bitpool)| == |needs|
    ensures Sum(Allocation(needs, bitpool), |needs|) == bitpool
  {
    FinalLevelBrackets(needs, bitpool);
    DistributionUsesWholePool(needs, bitpool, FinalLevel(needs, bitpool));
  }

  /** Every entry gets at most 16 bits, at least its share at the level, and hardly more below it. */
  lemma AllocationBounds(needs: seq<nat>, bitpool: nat, k: nat)
    requires bitpool <= MAX_BITS * |needs| && k < |needs|
    ensures |Allocation(needs, bitpool)| == |needs|
    ensures var slice := FinalLevel(needs, bitpool);
      Share(needs[k], slice) <= Allocation(needs, bitpool)[k] <= Min(Share(needs[k], slice - 1) + 1, MAX_BITS)
  {
    FinalLevelBrackets(needs, bitpool);
  }

  lemma AllocationWithinBounds(needs: seq<nat>, bitpool: nat)
    requires bitpool <= MAX_BITS * |needs|
    ensures |Allocation(needs, bitpool)| == |needs|
    ensures forall k | 0 <= k < |needs| :: Allocation(needs, bitpool)[k] <= MAX_BITS
  {
    forall k | 0 <= k < |needs|
      ensures Allocation(needs, bitpool)[k] <= MAX_BITS
    {
      AllocationBounds(needs, bitpool, k);
    }
  }

  /** A band with a larger scale factor never gets more than one bit fewer. */
  lemma LouderBandsAreServed(needs: seq<nat>, bitpool: nat, i: nat, j: nat)
    requires bitpool <= MAX_BITS * |needs| && i < |needs| && j < |needs| && needs[i] > needs[j]
    ensures |Allocation(needs, bitpool)| == |needs|
    ensures Allocation(needs, bitpool)[i] + 1 >= Allocation(needs, bitpool)[j]
  {
    AllocationBounds(needs, bitpool, i);
    AllocationBounds(needs, bitpool, j);
    var slice := FinalLevel(needs, bitpool);
    assert Share(needs[i], slice) >= Share(needs[j], slice - 1);
  }

  // The encoder's arrays -----------------------------------------------------------------

  /** Entry `k` is channel `k % 2` of band `k / 2`. */
  ghost function CellsUpTo(a: array2<nat>, n: nat): (cells: seq<nat>)
    requires a.Length0 == CHANNELS && a.Length1 == SUBBANDS && n <= ENTRIES
    reads a
    ensures |cells| == n
    ensures forall k | 0 <= k < n :: cells[k] == a[k % CHANNELS, k / CHANNELS]
    decreases a.Length0, n
  {
    if n == 0 then [] else CellsUpTo(a, n - 1) + [a[(n - 1) % CHANNELS, (n - 1) / CHANNELS]]
  }

  ghost function Cells(a: array2<nat>): (cells: seq<nat>)
    requires a.Length0 == CHANNELS && a.Length1 == SUBBANDS
    reads a
    ensures |cells| == ENTRIES
  {
    CellsUpTo(a, ENTRIES)
  }

  ghost function Index(channel: nat, band: nat): nat {
    CHANNELS * band + channel
  }

  /** What the bands before `n` of one channel count at `slice`. */
  ghost function RowTotal(needs: seq<nat>, slice: int, channel: nat, n: nat): nat
    requires channel < CHANNELS && |needs| == ENTRIES && n <= SUBBANDS
  {
    if n == 0 then 0
    else RowTotal(needs, slice, channel, n - 1) + SliceBits(needs[Index(channel, n - 1)], slice)
  }

  /** Counting channel by channel or band by band comes to the same. */
  lemma {:induction false} RowsAddUp(needs: seq<nat>, slice: int, n: nat)
    requires |needs| == ENTRIES && n <= SUBBANDS
    ensures SliceTotal(needs, slice, CHANNELS * n) == RowTotal(needs, slice, 0, n) + RowTotal(needs, slice, 1, n)
  {
    if n > 0 {
      RowsAddUp(needs, slice, n - 1);
    }
  }

  class Allocator {
    const bitpool: nat
    const scaleFactors: array2<nat>
    const allocatedBits: array2<nat>

    ghost predicate Valid() {
      && scaleFactors.Length0 == allocatedBits.Length0 == CHANNELS
      && scaleFactors.Length1 == allocatedBits.Length1 == SUBBANDS
      && scaleFactors != allocatedBits && bitpool <= MAX_BITS * ENTRIES
    }

    ghost function Needs(): seq<nat>
      requires Valid()
      reads scaleFactors
    {
      Cells(scaleFactors)
    }

    constructor (pool: nat)
      requires pool <= MAX_BITS * ENTRIES
      ensures Valid() && bitpool == pool && fresh(scaleFactors) && fresh(allocatedBits)
    {
      bitpool := pool;
      scaleFactors := new nat[CHANNELS, SUBBANDS]((i, j) => 0);
      allocatedBits := new nat[CHANNELS, SUBBANDS]((i, j) => 0);
    }

    method MaximumNeed() returns (maximum: nat)
      requires Valid()
      ensures maximum == Peak(Needs(), ENTRIES)
    {
      maximum := 0;
      ghost var needs := Needs();
      for channel := 0 to CHANNELS
        invariant maximum == 0 || exists k | 0 <= k < ENTRIES :: needs[k] == maximum
        invariant forall k | 0 <= k < ENTRIES && k % CHANNELS < channel :: needs[k] <= maximum
      {
        for band := 0 to SUBBANDS
          invariant maximum == 0 || exists k | 0 <= k < ENTRIES :: needs[k] == maximum
          invariant forall k | 0 <= k < ENTRIES && k % CHANNELS < channel :: needs[k] <= maximum
          invariant forall k | 0 <= k < ENTRIES && k % CHANNELS == channel && k / CHANNELS < band :: needs[k] <= maximum
        {
          assert needs[Index(channel, band)] == scaleFactors[channel, band];
          maximum := Max(maximum, scaleFactors[channel, band]);
        }
      }
    }

    method CountSlice(slice: int) returns (count: nat)
      requires Valid()
      ensures count == SliceTotal(Needs(), slice, ENTRIES)
    {
      count := 0;
      ghost var needs := Needs();
      for channel := 0 to CHANNELS
        invariant count == (if channel > 0 then RowTotal(needs, slice, 0, SUBBANDS) else 0)
                         + (if channel > 1 then RowTotal(needs, slice, 1, SUBBANDS) else 0)
      {
        ghost var before := count;
        for band := 0 to SUBBANDS
          invariant count == before + RowTotal(needs, slice, channel, band)
        {
          assert needs[Index(channel, band)] == scaleFactors[channel, band];
          var need := scaleFactors[channel, band];
          if need > slice + 1 && need < slice + 16 {
            count := count + 1;
          } else if need == slice + 1 {
            count := count + 2;
          }
        }
      }
      RowsAddUp(needs, slice, SUBBANDS);
    }

    /** The search loop: down one slice at a time until the pool is reached. */
    method FindLevel() returns (slice: int, bitCount: nat)
      requires Valid()
      ensures slice == FinalLevel(Needs(), bitpool)
      ensures bitCount == Total(Needs(), slice, ENTRIES)
    {
      ghost var needs := Needs();
      var maximum := MaximumNeed();
      NothingAboveThePeak(needs, maximum, ENTRIES);
      slice, bitCount := maximum, 0;
      var sliceCount := CountSlice(slice);
      SliceAddsUp(needs, slice, ENTRIES);
      while bitCount + sliceCount < bitpool
        invariant bitCount == Total(needs, slice, ENTRIES)
        invariant sliceCount == SliceTotal(needs, slice, ENTRIES)
        invariant bitCount + sliceCount == Total(needs, slice - 1, ENTRIES)
        invariant Level(needs, bitpool, slice) == FinalLevel(needs, bitpool)
        decreases slice + MAX_BITS
      {
        if slice - 1 <= -MAX_BITS { FullAtTheBottom(needs, slice - 1, ENTRIES); }
        slice := slice - 1;
        bitCount := bitCount + sliceCount;
        sliceCount := CountSlice(slice);
        SliceAddsUp(needs, slice, ENTRIES);
      }
      if bitCount + sliceCount == bitpool {
        bitCount := bitCount + sliceCount;
        slice := slice - 1;
      }
    }

    method AssignShares(slice: int)
      requires Valid()
      modifies allocatedBits
      ensures forall k | 0 <= k < ENTRIES :: Cells(allocatedBits)[k] == Share(Needs()[k], slice)
    {
      for channel := 0 to CHANNELS
        invariant forall i, j | 0 <= i < channel && 0 <= j < SUBBANDS ::
          allocatedBits[i, j] == Share(scaleFactors[i, j], slice)
      {
        for band := 0 to SUBBANDS
          invariant forall i, j | 0 <= i < channel && 0 <= j < SUBBANDS ::
            allocatedBits[i, j] == Share(scaleFactors[i, j], slice)
          invariant forall j | 0 <= j < band :: allocatedBits[channel, j] == Share(scaleFactors[channel, j], slice)
        {
          var need := scaleFactors[channel, band];
          allocatedBits[channel, band] := if need < slice + 2 then 0 else Min(need - slice, MAX_BITS);
        }
      }
    }

    method AdvanceCursor(channel: nat, band: nat) returns (nextChannel: nat, nextBand: nat)
      requires channel < CHANNELS
      ensures nextChannel < CHANNELS && Index(nextChannel, nextBand) == Index(channel, band) + 1
    {
      nextChannel, nextBand := channel + 1, band;
      if nextChannel == CHANNELS {
        nextChannel, nextBand := 0, band + 1;
      }
    }

    method SetBits(channel: nat, band: nat, bits: nat)
      requires Valid() && channel < CHANNELS && band < SUBBANDS
      modifies allocatedBits
      ensures Cells(allocatedBits) == old(Cells(allocatedBits))[Index(channel, band) := bits]
    {
      allocatedBits[channel, band] := bits;
    }

    /** Entries with a started share get a bit, those next in line two, while the pool lasts. */
    method FirstPass(slice: int, spent: nat) returns (bitCount: nat)
      requires Valid() && spent <= bitpool
      requires Cells(allocatedBits) == DuringFirst(Needs(), slice, bitpool - spent, 0)
      modifies allocatedBits
      ensures Cells(allocatedBits) == AfterFirst(Needs(), slice, bitpool - spent)
      ensures bitCount == spent + Given(Needs(), slice, bitpool - spent, ENTRIES)
    {
      ghost var needs, pool := Needs(), bitpool - spent;
      var channel: nat, band: nat := 0, 0;
      bitCount := spent;
      while bitCount < bitpool && band < SUBBANDS
        invariant channel < CHANNELS && band <= SUBBANDS && Index(channel, band) <= ENTRIES
        invariant bitCount == spent + Given(needs, slice, pool, Index(channel, band))
        invariant Cells(allocatedBits) == DuringFirst(needs, slice, pool, Index(channel, band))
        decreases ENTRIES - Index(channel, band)
      {
        ghost var at := Index(channel, band);
        DuringFirstStep(needs, slice, pool, at);
        assert Cells(allocatedBits)[at] == allocatedBits[channel, band];
        assert needs[at] == scaleFactors[channel, band];
        var bits := allocatedBits[channel, band];
        if bits >= 2 && bits < MAX_BITS {
          SetBits(channel, band, bits + 1);
          bitCount := bitCount + 1;
        } else if scaleFactors[channel, band] == slice + 1 && bitCount + 1 < bitpool {
          SetBits(channel, band, 2);
          bitCount := bitCount + 2;
        }
        channel, band := AdvanceCursor(channel, band);
      }
      FirstPassDone(needs, slice, pool, Index(channel, band));
    }

    /** Whatever is left goes out bit by bit from the start. */
    method SecondPass(spent: nat) returns (bitCount: nat)
      requires Valid() && spent <= bitpool
      modifies allocatedBits
      ensures Cells(allocatedBits) == AfterSecond(old(Cells(allocatedBits)), bitpool - spent)
      ensures bitCount == spent + Topped(old(Cells(allocatedBits)), bitpool - spent, ENTRIES)
    {
      ghost var given, pool := Cells(allocatedBits), bitpool - spent;
      var channel: nat, band: nat := 0, 0;
      bitCount := spent;
      while bitCount < bitpool && band < SUBBANDS
        invariant channel < CHANNELS && band <= SUBBANDS && Index(channel, band) <= ENTRIES
        invariant bitCount == spent + Topped(given, pool, Index(channel, band))
        invariant Cells(allocatedBits) == DuringSecond(given, pool, Index(channel, band))
        decreases ENTRIES - Index(channel, band)
      {
        ghost var at := Index(channel, band);
        DuringSecondStep(given, pool, at);
        assert Cells(allocatedBits)[at] == allocatedBits[channel, band];
        var bits := allocatedBits[channel, band];
        if bits < MAX_BITS {
          SetBits(channel, band, bits + 1);
          bitCount := bitCount + 1;
        }
        channel, band := AdvanceCursor(channel, band);
      }
      SecondPassDone(given, pool, Index(channel, band));
    }

    /** The whole of `AllocateSnrBits`. */
    method AllocateSnrBits()
      requires Valid()
      modifies allocatedBits
      ensures Cells(allocatedBits) == Allocation(Needs(), bitpool)
      ensures Sum(Cells(allocatedBits), ENTRIES) == bitpool
      ensures forall k | 0 <= k < ENTRIES :: Cells(allocatedBits)[k] <= MAX_BITS
    {
      ghost var needs := Needs();
      FinalLevelBrackets(needs, bitpool);
      AllocationUsesWholePool(needs, bitpool);
      AllocationWithinBounds(needs, bitpool);
      var slice, bitCount := FindLevel();
      AssignShares(slice);
      assert Cells(allocatedBits) == DuringFirst(needs, slice, bitpool - bitCount, 0);
      bitCount := FirstPass(slice, bitCount);
      bitCount := SecondPass(bitCount);
    }
  }
}
