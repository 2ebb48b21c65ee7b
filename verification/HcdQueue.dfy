/** Facts about the completion queue: counting, ready-time order and pacing. */
module HcdQueue {
  import opened Base
  import opened HcdSpec

  // Counting: how often a submission occurs in a list ------------------------------------

  function Count(l: seq<Context>, k: nat): nat {
    if l == [] then 0 else (if l[0].serial == k then 1 else 0) + Count(l[1..], k)
  }

  lemma {:induction false} CountConcat(a: seq<Context>, b: seq<Context>, k: nat)
    ensures Count(a + b, k) == Count(a, k) + Count(b, k)
  {
    if a == [] {
      assert a + b == b;
    } else {
      assert (a + b)[1..] == a[1..] + b;
      CountConcat(a[1..], b, k);
    }
  }

  lemma CountOne(c: Context, k: nat)
    ensures Count([c], k) == if c.serial == k then 1 else 0
  {
    assert [c][1..] == [];
  }

  lemma CountSplit(a: seq<Context>, c: Context, b: seq<Context>, k: nat)
    ensures Count(a + [c] + b, k) == Count(a + b, k) + (if c.serial == k then 1 else 0)
  {
    CountConcat(a + [c], b, k);
    CountConcat(a, [c], k);
    CountConcat(a, b, k);
    CountOne(c, k);
  }

  lemma CountInsert(c: Context, q: seq<Context>, k: nat)
    ensures Count(Insert(c, q), k) == Count(q, k) + (if c.serial == k then 1 else 0)
  {
    var s := Slot(c, q);
    assert q == q[..s] + q[s..];
    CountSplit(q[..s], c, q[s..], k);
  }

  lemma CountWithout(i: nat, l: seq<Context>, k: nat)
    requires i < |l|
    ensures Count(l, k) == Count(Without(i, l), k) + (if l[i].serial == k then 1 else 0)
  {
    assert l == l[..i] + [l[i]] + l[i + 1..];
    CountSplit(l[..i], l[i], l[i + 1..], k);
  }

  lemma CountUpdate(i: nat, c: Context, l: seq<Context>, k: nat)
    requires i < |l| && c.serial == l[i].serial
    ensures Count(l[i := c], k) == Count(l, k)
  {
    assert l == l[..i] + [l[i]] + l[i + 1..];
    assert l[i := c] == l[..i] + [c] + l[i + 1..];
    CountSplit(l[..i], l[i], l[i + 1..], k);
    CountSplit(l[..i], c, l[i + 1..], k);
  }

  lemma {:induction false} CountPositiveIffPresent(l: seq<Context>, k: nat)
    ensures Count(l, k) > 0 <==> Has(k, l)
  {
    if l != [] {
      CountPositiveIffPresent(l[1..], k);
    }
  }

  lemma {:induction false} EntryCounts(l: seq<Context>, i: nat)
    requires i < |l|
    ensures Count(l, l[i].serial) > 0
  {
    if i > 0 {
      EntryCounts(l[1..], i - 1);
    }
  }

  // Placement ----------------------------------------------------------------------------

  lemma {:induction false} SlotIsFirst(c: Context, q: seq<Context>)
    ensures forall j | 0 <= j < Slot(c, q) :: !Before(c, q[j])
    ensures Slot(c, q) < |q| ==> Before(c, q[Slot(c, q)])
  {
    if q == [] || Before(c, q[0]) {
    } else {
      SlotIsFirst(c, q[1..]);
      assert forall j | 1 <= j < |q| :: q[j] == q[1..][j - 1];
    }
  }

  predicate ReadyOrdered(q: seq<Context>, i: nat, j: nat)
    requires i < j < |q|
  {
    q[i].ready != 0 && q[j].ready != 0 ==> q[i].ready <= q[j].ready
  }

  /** The timed entries are in ready-time order. */
  predicate SortedByReady(q: seq<Context>) {
    forall i: nat, j: nat | i < j < |q| :: ReadyOrdered(q, i, j)
  }

  /** Where the entry at position `i` of an insertion came from. */
  lemma InsertedAt(c: Context, q: seq<Context>, i: nat)
    requires i < |Insert(c, q)|
    ensures var s := Slot(c, q);
      |Insert(c, q)| == |q| + 1 &&
      Insert(c, q)[i] == if i < s then q[i] else if i == s then c else q[i - 1]
  {
  }

  /** All timed entries from the slot on are later than `c`. */
  lemma LaterFromSlot(c: Context, q: seq<Context>)
    requires SortedByReady(q) && c.ready > 0
    ensures forall j | Slot(c, q) <= j < |q| && q[j].ready != 0 :: q[j].ready > c.ready
  {
    SlotIsFirst(c, q);
    var s := Slot(c, q);
    forall j | s <= j < |q| && q[j].ready != 0
      ensures q[j].ready > c.ready
    {
      if j > s { assert ReadyOrdered(q, s, j); }
    }
  }

  lemma InsertSorted(c: Context, q: seq<Context>)
    requires SortedByReady(q) && c.ready >= 0
    ensures SortedByReady(Insert(c, q))
  {
    var s := Slot(c, q);
    var r := Insert(c, q);
    SlotIsFirst(c, q);
    if c.ready > 0 { LaterFromSlot(c, q); }
    forall i: nat, j: nat | i < j < |r|
      ensures ReadyOrdered(r, i, j)
    {
      InsertedAt(c, q, i);
      InsertedAt(c, q, j);
      if j == s {
        assert !Before(c, q[i]);
      } else if i != s {
        assert ReadyOrdered(q, if i < s then i else i - 1, if j < s then j else j - 1);
      }
    }
  }

  /**
   A request without a ready time overtakes every timed one and nothing else: control and
   interrupt transfers never wait behind future audio.
   */
  lemma UntimedOvertakesTimed(c: Context, q: seq<Context>)
    requires c.ready == 0
    ensures var s := Slot(c, q);
      Insert(c, q) == q[..s] + [c] + q[s..] &&
      (forall j | 0 <= j < s :: q[j].ready == 0) &&
      (s < |q| ==> q[s].ready != 0)
  {
    SlotIsFirst(c, q);
  }

  /** A timed request goes in front of the first request that is ready later, and of nothing else. */
  lemma TimedOvertakesLater(c: Context, q: seq<Context>)
    requires c.ready > 0
    ensures var s := Slot(c, q);
      Insert(c, q) == q[..s] + [c] + q[s..] &&
      (forall j | 0 <= j < s :: q[j].ready <= c.ready) &&
      (s < |q| ==> q[s].ready > c.ready)
  {
    SlotIsFirst(c, q);
  }

  /** Equal ready times complete first come, first served. */
  lemma TiesAreFifo(c: Context, q: seq<Context>, j: nat)
    requires SortedByReady(q) && c.ready > 0 && j < |q| && q[j].ready == c.ready
    ensures j < Slot(c, q)
  {
    LaterFromSlot(c, q);
  }

  // Submission order -----------------------------------------------------------------------

  /** Neighbours are in submission order. */
  predicate Increasing(l: seq<Context>) {
    |l| <= 1 || (l[0].serial < l[1].serial && Increasing(l[1..]))
  }

  lemma {:induction false} IncreasingAppend(l: seq<Context>, c: Context)
    requires Increasing(l) && forall i | 0 <= i < |l| :: l[i].serial < c.serial
    ensures Increasing(l + [c])
  {
    if |l| > 0 {
      assert (l + [c])[1..] == l[1..] + [c];
      IncreasingAppend(l[1..], c);
    }
  }

  lemma {:induction false} IncreasingWithout(l: seq<Context>, i: nat)
    requires Increasing(l) && i < |l|
    ensures Increasing(Without(i, l))
    ensures Without(i, l) != [] ==> l[0].serial <= Without(i, l)[0].serial
  {
    if i == 0 {
      assert Without(0, l) == l[1..];
    } else {
      IncreasingWithout(l[1..], i - 1);
      assert Without(i, l)[1..] == Without(i - 1, l[1..]);
    }
  }

  lemma {:induction false} IncreasingAll(l: seq<Context>, i: nat, j: nat)
    requires Increasing(l) && i < j < |l|
    ensures l[i].serial < l[j].serial
  {
    if i > 0 {
      IncreasingAll(l[1..], i - 1, j - 1);
    } else if j > 1 {
      IncreasingAll(l[1..], 0, j - 1);
    }
  }

  // Pacing -------------------------------------------------------------------------------

  /** `b` comes after `a` in its stream: submitted later and ready at least its own span later. */
  predicate Follows(a: Context, b: Context) {
    StreamOf(a) == StreamOf(b) != Untimed && a.epoch == b.epoch ==>
      a.serial < b.serial && a.ready + b.span <= b.ready
  }

  predicate FollowsAt(h: seq<Context>, i: nat, j: nat)
    requires i < j < |h|
  {
    Follows(h[i], h[j])
  }

  /** Every stream of `h` is in submission order and leaves room for each request's span. */
  predicate Paced(h: seq<Context>) {
    forall i: nat, j: nat | i < j < |h| :: FollowsAt(h, i, j)
  }

  predicate Precedes(h: seq<Context>, i: nat, c: Context)
    requires i < |h|
  {
    Follows(h[i], c)
  }

  /** `b` was made from `a` without touching its timing, or by cancelling it. */
  predicate SameTimingOrCancelled(a: Context, b: Context) {
    b.serial == a.serial && b.epoch == a.epoch &&
    (b.ready == 0 ||
     (b.ready == a.ready && b.span == a.span && b.deliverOut == a.deliverOut && b.deliverIn == a.deliverIn))
  }

  /** Replacing one entry by itself with other data, or by its cancelled self. */
  lemma PacedReplace(h: seq<Context>, n: nat, c: Context)
    requires Paced(h) && n < |h| && SameTimingOrCancelled(h[n], c)
    ensures Paced(h[n := c])
  {
    var r := h[n := c];
    forall i: nat, j: nat | i < j < |r|
      ensures FollowsAt(r, i, j)
    {
      assert FollowsAt(h, i, j);
    }
  }

  /** Inserting a request that follows everything in its stream keeps the streams paced. */
  lemma PacedInsert(p: seq<Context>, c: Context, q: seq<Context>)
    requires Paced(p + q) && SortedByReady(q) && c.ready >= 0
    requires forall i: nat | i < |p + q| :: Precedes(p + q, i, c)
    ensures Paced(p + Insert(c, q))
  {
    var s := |p| + Slot(c, q);
    var h := p + q;
    var r := p + Insert(c, q);
    if c.ready > 0 { LaterFromSlot(c, q); }
    forall i: nat, j: nat | i < j < |r|
      ensures FollowsAt(r, i, j)
    {
      if j == s {
        assert r[i] == h[i];
        assert Precedes(h, i, c);
      } else if i == s {
        assert r[j] == q[j - 1 - |p|] == h[j - 1];
        assert Precedes(h, j - 1, c);
      } else {
        var i', j' := if i < s then i else i - 1, if j < s then j else j - 1;
        assert r[i] == h[i'] && r[j] == h[j'];
        assert FollowsAt(h, i', j');
      }
    }
  }

  /** Total span of the requests `h[i+1..j]`, all of one stream. */
  function SpanBetween(h: seq<Context>, i: nat, j: nat): int
    requires i <= j < |h|
    decreases j - i
  {
    if i == j then 0 else SpanBetween(h, i, j - 1) + h[j].span
  }

  /** Over any run of one stream the ready times advance by at least the sum of the spans. */
  lemma {:induction false} PacedRun(h: seq<Context>, i: nat, j: nat)
    requires Paced(h) && i <= j < |h|
    requires forall m | i <= m <= j :: StreamOf(h[m]) == StreamOf(h[i]) != Untimed && h[m].epoch == h[i].epoch
    ensures h[i].ready + SpanBetween(h, i, j) <= h[j].ready
    decreases j - i
  {
    if i < j {
      PacedRun(h, i, j - 1);
      assert FollowsAt(h, j - 1, j);
    }
  }
}
