/** The report queue and the writer thread of the HID transport in src/platform/win32/vds_bt.cc. */
module OutputWriter {
  import opened Base
  import opened OutputSpec
  import opened OutputTheorems

  datatype Failure = ReportTooLarge | WriterFailed

  const MAX_QUEUED_AUDIO: nat := 1

  class Transport {
    const reportLength: nat
    var queue: seq<Write>
    var active: Option<Write>
    var error: bool
    var stopRequested: bool
    var queuedCount: nat
    var completedCount: nat
    var rejectedCount: nat
    var coalescedCount: nat
    var audioErrorCount: nat
    ghost var accepted: seq<Write>
    ghost var fates: seq<Fate>

    ghost function Current(): Writer
      reads this
    {
      Writer(reportLength, queue, active, error, stopRequested, queuedCount, completedCount, rejectedCount,
             coalescedCount, audioErrorCount, accepted, fates)
    }

    constructor (length: nat)
      ensures Untouched(Current()) && Inv(Current()) && reportLength == length
    {
      reportLength := length;
      queue, active, error, stopRequested := [], None, false, false;
      queuedCount, completedCount, rejectedCount, coalescedCount, audioErrorCount := 0, 0, 0, 0, 0;
      accepted, fates := [], [];
      new;
      UntouchedIsGood(Current());
    }

    // Callers ----------------------------------------------------------------------------

    method MakeOutputWrite(report: seq<Byte>) returns (r: Result<seq<Byte>, Failure>)
      ensures r.Err? <==> |report| > reportLength
      ensures r.Ok? ==> |r.value| == reportLength && report <= r.value && r.value == Padded(report, reportLength)
    {
      if |report| > reportLength {
        return Err(ReportTooLarge);
      }
      r := Ok(report + Zeros(reportLength - |report|));
    }

    method CoalesceOldestAudio() returns (found: bool)
      modifies this`queue, this`coalescedCount, this`fates
      ensures Current() == Replace(old(Current())) && found == (FirstAudio(old(queue)) < |old(queue)|)
    {
      var i := 0;
      while i < |queue| && !queue[i].audio
        invariant i <= FirstAudio(queue)
      {
        i := i + 1;
      }
      assert i == FirstAudio(queue);
      if i == |queue| {
        return false;
      }
      fates := fates + [Replaced(queue[i], queuedCount)];
      queue := queue[..i] + queue[i + 1..];
      coalescedCount := coalescedCount + 1;
      found := true;
    }

    method CountQueuedAudio() returns (n: nat)
      requires OneAudio(queue)
      ensures n == if FirstAudio(queue) < |queue| then 1 else 0
    {
      n := 0;
      for i := 0 to |queue|
        invariant n == if FirstAudio(queue) < i then 1 else 0
      {
        if queue[i].audio {
          assert !(FirstAudio(queue) < i);
          n := n + 1;
        }
      }
    }

    /** Room for one more audio report: the queued one goes. */
    method MakeRoomForAudio()
      requires Inv(Current())
      modifies this`queue, this`coalescedCount, this`fates
      ensures Current() == Replace(old(Current())) && FirstAudio(queue) == |queue|
    {
      var queuedAudio := CountQueuedAudio();
      ghost var i := FirstAudio(queue);
      if i < |queue| {
        NoSecondAudio(queue, i);
      }
      while queuedAudio >= MAX_QUEUED_AUDIO
        invariant 0 <= queuedAudio <= 1 && i == FirstAudio(old(queue))
        invariant queuedAudio == 1 ==> Current() == old(Current()) && FirstAudio(queue) < |queue|
        invariant queuedAudio == 0 ==> Current() == Replace(old(Current())) && FirstAudio(queue) == |queue|
      {
        var found := CoalesceOldestAudio();
        if !found {
          break;
        }
        queuedAudio := queuedAudio - 1;
      }
    }

    method Admit(buffer: seq<Byte>, audio: bool) returns (done: bool)
      requires Inv(Current())
      modifies this
      ensures Current() == OutputSpec.Admit(old(Current()), buffer, audio)
      ensures done <==> rejectedCount == old(rejectedCount)
    {
      ghost var before := Current();
      ghost var i := FirstAudio(queue);
      if audio {
        MakeRoomForAudio();
        assert i < |before.queue| ==> |queue| < |before.queue|;
      }
      if |queue| >= MAX_PENDING {
        var found := false;
        if audio {
          found := CoalesceOldestAudio();
        }
        if !found {
          rejectedCount := rejectedCount + 1;
          return false;
        }
      }
      // The code tests the size once more before it pushes; that test never fails.
      if |queue| >= MAX_PENDING {
        assert false;
      }
      Push(buffer, audio);
      done := true;
    }

    method Push(buffer: seq<Byte>, audio: bool)
      modifies this`queue, this`queuedCount, this`accepted
      ensures Current() == Join(old(Current()), buffer, audio)
    {
      accepted := accepted + [Write(queuedCount, buffer, audio)];
      queue := queue + [Write(queuedCount, buffer, audio)];
      queuedCount := queuedCount + 1;
    }

    /** False is a full queue; the ways to throw change nothing. */
    method EnqueueOutputReport(report: seq<Byte>, audio: bool) returns (r: Result<bool, Failure>)
      requires Inv(Current())
      modifies this
      ensures Current() == Step(old(Current()), DoEnqueue(report, audio)) && Inv(Current())
      ensures r.Err? <==> |report| > reportLength || old(error)
      ensures r.Err? ==> Current() == old(Current())
      ensures r == Ok(false) <==> rejectedCount > old(rejectedCount)
      ensures r == Ok(false) ==> |queue| == MAX_PENDING && (audio ==> FirstAudio(queue) == |queue|)
      ensures r == Ok(true) ==> |queue| > 0 && queue[|queue| - 1] == Write(old(queuedCount), Padded(report, reportLength), audio)
    {
      StepKeeps(Current(), DoEnqueue(report, audio));
      var write := MakeOutputWrite(report);
      if write.Err? {
        return Err(write.error);
      }
      if error {
        return Err(WriterFailed);
      }
      var done := Admit(write.value, audio);
      r := Ok(done);
    }

    // The writer thread ------------------------------------------------------------------

    method TakeWrite() returns (write: Write)
      requires Inv(Current()) && CanTake(Current())
      modifies this
      ensures Current() == Step(old(Current()), DoTake) && Inv(Current()) && active == Some(write)
    {
      StepKeeps(Current(), DoTake);
      write := queue[0];
      queue := queue[1..];
      active := Some(write);
    }

    /** `results` is what each call of the system takes of the bytes it is offered; nothing is a failure. */
    static method WriteBuffer(buffer: seq<Byte>, results: seq<Option<nat>>) returns (success: bool, sent: seq<Byte>)
      requires |results| >= |buffer|
      ensures sent <= buffer && (success <==> sent == buffer)
      ensures !success ==> exists i :: 0 <= i < |results| && (results[i].None? || results[i].value == 0)
    {
      var offset, calls := 0, 0;
      sent := [];
      while offset < |buffer|
        invariant calls <= offset <= |buffer| && sent == buffer[..offset]
        decreases |buffer| - offset
      {
        if results[calls].None? || results[calls].value == 0 {
          return false, sent;
        }
        var written := Min(results[calls].value, |buffer| - offset);
        sent := sent + buffer[offset..offset + written];
        offset := offset + written;
        calls := calls + 1;
      }
      success := true;
    }

    method FinishWrite(success: bool)
      requires Inv(Current()) && active.Some?
      modifies this
      ensures Current() == Step(old(Current()), DoFinish(success)) && Inv(Current())
    {
      StepKeeps(Current(), DoFinish(success));
      RecordOutcome(success);
    }

    method RecordOutcome(success: bool)
      requires active.Some?
      modifies this
      ensures Current() == Finish(old(Current()), success)
    {
      var write := active.value;
      active := None;
      if success {
        completedCount := completedCount + 1;
        fates := fates + [Sent(write)];
      } else if write.audio {
        audioErrorCount := audioErrorCount + 1;
        fates := fates + [AudioFailed(write)];
      } else {
        error := true;
        fates := fates + [FatallyFailed(write)];
      }
    }

    method StopOutputWriter()
      requires Inv(Current())
      modifies this
      ensures Current() == Step(old(Current()), DoStop) && Inv(Current())
    {
      StepKeeps(Current(), DoStop);
      if stopRequested {
        return;
      }
      stopRequested := true;
      fates := fates + DiscardAll(queue);
      queue := [];
    }
  }
}
