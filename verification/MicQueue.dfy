/**
 The microphone queue of module/vds_hcd_core.c: packets written by the daemon, read by
 isochronous IN transfers. Its meaning is the byte string of everything still unread.
 */
module MicQueue {
  import opened Base

  const BYTES_PER_MS := 192
  const MAX_BYTES := 19200

  /** `payload[offset..]` is what no transfer has read yet. */
  datatype Packet = Packet(offset: nat, payload: seq<Byte>) {
    predicate Live() { offset < |payload| }

    function Unread(): seq<Byte>
      requires offset <= |payload|
    {
      payload[offset..]
    }
  }

  predicate AllLive(ps: seq<Packet>) {
    forall i | 0 <= i < |ps| :: ps[i].Live()
  }

  /** A queue: every packet in it still has something to read. */
  type Queue = ps: seq<Packet> | AllLive(ps)

  /** The queue read as one byte FIFO, oldest byte first. */
  function Unread(ps: Queue): seq<Byte> {
    if ps == [] then [] else ps[0].Unread() + Unread(ps[1..])
  }

  /** The queue after `n` bytes were read from its front. */
  function Consume(ps: Queue, n: nat): Queue {
    if n == 0 || ps == [] then ps
    else
      var available := |ps[0].payload| - ps[0].offset;
      if n < available then [ps[0].(offset := ps[0].offset + n)] + ps[1..]
      else Consume(ps[1..], n - available)
  }

  /** What a transfer of `length` bytes receives: the oldest bytes in order, then silence. */
  function Taken(ps: Queue, length: nat): (data: seq<Byte>)
    ensures |data| == length
  {
    var bytes := Unread(ps);
    if length <= |bytes| then bytes[..length] else bytes + Zeros(length - |bytes|)
  }

  /** The queue after the packets that do not fit beside a new one of `length` bytes are gone. */
  function Trim(ps: Queue, length: nat): Queue {
    if ps != [] && |Unread(ps)| + length > MAX_BYTES then Trim(ps[1..], length) else ps
  }

  /** The byte counter is exact and bounded, so the saturating subtractions never saturate. */
  predicate Inv(ps: Queue, queuedBytes: int) {
    queuedBytes == |Unread(ps)| <= MAX_BYTES
  }

  lemma {:induction false} UnreadConcat(a: Queue, b: Queue)
    ensures Unread(a + b) == Unread(a) + Unread(b)
  {
    if a == [] {
      assert a + b == b;
    } else {
      assert (a + b)[1..] == a[1..] + b;
      UnreadConcat(a[1..], b);
    }
  }

  /** Reading is a FIFO: exactly the oldest `n` bytes leave, and nothing is reordered. */
  lemma {:induction false} ConsumeDropsOldest(ps: Queue, n: nat)
    ensures Unread(Consume(ps, n)) == Unread(ps)[Min(n, |Unread(ps)|)..]
  {
    if n == 0 || ps == [] {
    } else {
      var available := |ps[0].payload| - ps[0].offset;
      if n < available {
        var p := ps[0].(offset := ps[0].offset + n);
        assert ([p] + ps[1..])[1..] == ps[1..];
        assert p.Unread() == ps[0].Unread()[n..];
      } else {
        ConsumeDropsOldest(ps[1..], n - available);
      }
    }
  }

  /** Consuming in two steps is consuming once, and the two reads join up. */
  lemma ReadsCompose(ps: Queue, m: nat, n: nat)
    ensures m + n <= |Unread(ps)| ==> Taken(ps, m) + Taken(Consume(ps, m), n) == Taken(ps, m + n)
  {
    ConsumeDropsOldest(ps, m);
  }

  /** Reading `m` of `n` bytes first leaves the same bytes and the same queue as reading `n`. */
  lemma {:induction false} ReadsJoin(ps: Queue, m: nat, n: nat)
    requires m <= n && ps != [] && m == Min(n, |ps[0].payload| - ps[0].offset)
    ensures ps[0].payload[ps[0].offset..ps[0].offset + m] + Taken(Consume(ps, m), n - m) == Taken(ps, n)
    ensures Consume(Consume(ps, m), n - m) == Consume(ps, n)
  {
    var first := ps[0].payload[ps[0].offset..ps[0].offset + m];
    ConsumeDropsOldest(ps, m);
    assert Unread(ps) == ps[0].Unread() + Unread(ps[1..]);
    assert first == Unread(ps)[..m];
    assert Unread(ps) == first + Unread(Consume(ps, m));
  }

  /** The same behind bytes already read. */
  lemma ReadsJoinAfter(done: seq<Byte>, ps: Queue, first: seq<Byte>, n: nat)
    requires ps != [] && |first| == Min(n, |ps[0].payload| - ps[0].offset)
    requires first == ps[0].payload[ps[0].offset..ps[0].offset + |first|]
    ensures (done + first) + Taken(Consume(ps, |first|), n - |first|) == done + Taken(ps, n)
    ensures Consume(Consume(ps, |first|), n - |first|) == Consume(ps, n)
  {
    ReadsJoin(ps, |first|, n);
    Assoc(done, first, Taken(Consume(ps, |first|), n - |first|));
  }

  /**
   Overflow drops whole oldest packets, as few as make room: the kept queue is a suffix,
   it fits, and keeping one packet more would not fit.
   */
  lemma {:induction false} TrimDropsFewestOldest(ps: Queue, length: nat) returns (k: nat)
    requires length <= MAX_BYTES
    ensures k <= |ps| && Trim(ps, length) == ps[k..]
    ensures |Unread(ps[k..])| + length <= MAX_BYTES
    ensures k > 0 ==> |Unread(ps[k - 1..])| + length > MAX_BYTES
  {
    k := 0;
    if ps != [] && |Unread(ps)| + length > MAX_BYTES {
      var j := TrimDropsFewestOldest(ps[1..], length);
      assert ps[1..][j..] == ps[j + 1..];
      k := j + 1;
      if j > 0 {
        assert ps[1..][j - 1..] == ps[k - 1..];
      } else {
        assert ps[0..] == ps;
      }
    } else {
      assert ps[0..] == ps;
    }
  }

  /** A write keeps the counter exact and the bound: the new bytes follow what was kept. */
  lemma WriteKeepsInv(ps: Queue, queuedBytes: int, payload: seq<Byte>)
    requires Inv(ps, queuedBytes) && 0 < |payload| <= MAX_BYTES
    ensures var kept := Trim(ps, |payload|);
      Inv(kept + [Packet(0, payload)], |Unread(kept)| + |payload|) &&
      Unread(kept + [Packet(0, payload)]) == Unread(kept) + payload
  {
    var k := TrimDropsFewestOldest(ps, |payload|);
    var p := Packet(0, payload);
    assert Unread([p]) == payload by {
      assert [p][1..] == [];
      assert p.Unread() == payload;
    }
    UnreadConcat(Trim(ps, |payload|), [p]);
  }
}
