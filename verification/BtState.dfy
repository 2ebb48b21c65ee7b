/** The code of src/platform/linux/vdsd.cc that forwards state reports and audio to a controller. */
module BtState {
  import opened Base
  import opened PcmExtractor
  import opened SyncSpec
  import opened SyncTheorems

  class VirtualPort {
    var outputState: DsState
    var reportSequence: nat
    var micSequence: nat
    var lastSent: Option<DsState>
    var pendingState: Option<DsState>
    var pendingReport: Option<StateReport>
    var pendingAudio: seq<Chunk>
    var nextSend: nat
    var toneActive: bool
    var connected: bool
    ghost var log: seq<Entry>
    ghost var pushed: seq<Chunk>

    ghost function Current(): Port
      reads this
    {
      Port(outputState, reportSequence, micSequence, lastSent, pendingState, pendingReport, pendingAudio, nextSend,
           toneActive, connected, log, pushed)
    }

    constructor (initial: DsState)
      ensures Current() == Fresh(initial) && Inv(Current())
    {
      outputState, reportSequence, micSequence := initial, 0, 0;
      lastSent, pendingState, pendingReport := None, None, None;
      pendingAudio, nextSend, toneActive, connected := [], 0, false, false;
      log, pushed := [], [];
    }

    // State reports ----------------------------------------------------------------------

    method BuildStateReport() returns (report: StateReport)
      modifies this`reportSequence
      ensures report == StateReport(old(reportSequence), Carried(outputState)) && Carries(report.payload, outputState)
      ensures reportSequence == Renumbered(old(reportSequence), 1)
      ensures old(Inv(Current())) ==> Inv(Current())
    {
      report := StateReport(
        reportSequence, if |outputState| <= SET_STATE_SIZE then outputState else outputState[..SET_STATE_SIZE]);
      reportSequence := (reportSequence + 1) % 16;
    }

    /** `clear` tells that no report waits any more. */
    method FlushPendingState(accepted: bool) returns (clear: bool)
      modifies this
      ensures Current() == FlushState(old(Current()), accepted)
      ensures clear == (old(pendingState.None? || pendingReport.None?) || accepted)
    {
      if pendingReport.None? || pendingState.None? {
        return true;
      }
      if accepted {
        log := log + [StateSent(pendingReport.value, pendingState.value)];
        lastSent := pendingState;
        pendingState := None;
        pendingReport := None;
      }
      clear := accepted;
    }

    method ForwardStateIfChanged(resend: bool, send: bool)
      modifies this
      ensures Current() == Forward(old(Current()), resend, send)
      ensures old(Inv(Current()) && connected) ==> Inv(Current()) && Settled(Current())
      ensures old(Inv(Current()) && connected) ==> ReportsCarry(Current())
    {
      ghost var before := Current();
      if Inv(before) && connected {
        ForwardKeeps(before, resend, send);
        ForwardSettles(before, resend, send);
        GoodReportsCarry(Forward(before, resend, send));
      }
      var _ := FlushPendingState(resend);
      if lastSent == Some(outputState) {
        if pendingState.Some? {
          pendingState := None;
          pendingReport := None;
        }
        return;
      }
      if pendingState == Some(outputState) {
        return;
      }
      var report := BuildStateReport();
      if send {
        log := log + [StateSent(report, outputState)];
        lastSent := Some(outputState);
        pendingState := None;
        pendingReport := None;
        return;
      }
      pendingState := Some(outputState);
      pendingReport := Some(report);
    }

    /** The report for an interface or mute change; it is sent once and not kept. */
    method SendMicState(next: DsState, accepted: bool)
      modifies this
      ensures Current() == Mic(old(Current()), next, accepted)
      ensures old(Inv(Current())) ==> Inv(Current())
      ensures Told(log) == if accepted then Some(MicOf(outputState)) else old(Told(log))
    {
      if Inv(Current()) {
        MicKeeps(Current(), next, accepted);
      }
      OneMore(log, MicSent(reportSequence, MicOf(next)));
      outputState := next;
      if accepted {
        log := log + [MicSent(reportSequence, MicOf(next))];
      }
      reportSequence := (reportSequence + 1) % 16;
    }

    /** The report that opens or closes the microphone. */
    method SendMicSwitch(open: bool, accepted: bool)
      modifies this
      ensures Current() == MicSwitch(old(Current()), open, accepted)
      ensures old(Inv(Current())) ==> Inv(Current())
    {
      if Inv(Current()) {
        MicSwitchKeeps(Current(), open, accepted);
      }
      if accepted {
        log := log + [MicSwitched(micSequence, open)];
      }
      micSequence := (micSequence + 1) % 16;
    }

    // Audio ------------------------------------------------------------------------------

    method PushAudio(chunks: seq<Chunk>)
      requires |pendingAudio| <= MAX_PENDING_CHUNKS
      modifies this`pendingAudio, this`pushed
      ensures Current() == Push(old(Current()), chunks)
    {
      for i := 0 to |chunks|
        invariant pendingAudio == Newest(old(pendingAudio) + chunks[..i], MAX_PENDING_CHUNKS) && pushed == old(pushed)
      {
        if |pendingAudio| >= MAX_PENDING_CHUNKS {
          pendingAudio := pendingAudio[1..];
        }
        pendingAudio := pendingAudio + [chunks[i]];
        assert old(pendingAudio) + chunks[..i + 1] == (old(pendingAudio) + chunks[..i]) + [chunks[i]];
      }
      assert chunks[..|chunks|] == chunks;
      pushed := pushed + chunks;
    }

    /** `chunks` is what the tone generator and its extractor make of one window. */
    method EnqueueTone(chunks: seq<Chunk>)
      modifies this`pendingAudio, this`pushed
      ensures Current() == AddTone(old(Current()), chunks)
    {
      if !toneActive || pendingAudio != [] {
        return;
      }
      var i := 0;
      while i < |chunks| && |pendingAudio| < MAX_PENDING_CHUNKS
        invariant i <= |chunks| && i <= MAX_PENDING_CHUNKS && pendingAudio == chunks[..i] && pushed == old(pushed)
      {
        pendingAudio := pendingAudio + [chunks[i]];
        i := i + 1;
      }
      pushed := pushed + pendingAudio;
    }

    method DropStale()
      modifies this`pendingAudio
      ensures pendingAudio == Newest(old(pendingAudio), FRESH_PENDING_CHUNKS)
    {
      ghost var k := 0;
      while |pendingAudio| > FRESH_PENDING_CHUNKS
        invariant k <= |old(pendingAudio)| && pendingAudio == old(pendingAudio)[k..]
        invariant k > 0 ==> |pendingAudio| >= FRESH_PENDING_CHUNKS
        decreases |pendingAudio|
      {
        pendingAudio := pendingAudio[1..];
        k := k + 1;
      }
    }

    /** `sent` is false exactly when a packet was due and blocked; its chunk is dropped all the same. */
    method FlushAudio(now: nat, after: nat, accepted: bool) returns (sent: bool)
      modifies this
      ensures Current() == SendAudio(old(Current()), now, after, accepted)
      ensures sent == (accepted || !AudioIsDue(old(Current()), now))
    {
      if pendingAudio == [] {
        return true;
      }
      if nextSend != 0 && now < nextSend {
        return true;
      }
      DropStale();
      var chunk := pendingAudio[0];
      if !accepted {
        pendingAudio := pendingAudio[1..];
        nextSend := after + BLOCKED_RETRY;
        return false;
      }
      log := log + [AudioSent(chunk, |pushed| - |pendingAudio|, outputState, now)];
      pendingAudio := pendingAudio[1..];
      lastSent := Some(outputState);
      if pendingState.Some? && pendingState == lastSent {
        pendingState := None;
        pendingReport := None;
      }
      nextSend := now + AUDIO_INTERVAL;
      sent := true;
    }

    /** One controller's turn in the event loop. */
    method FlushOutputs(tone: seq<Chunk>, now: nat, after: nat, resend: bool, send: bool)
      requires Inv(Current()) && now <= after
      modifies this
      ensures Current() == Step(old(Current()), DoOutputs(tone, now, after, resend, send))
      ensures Inv(Current())
    {
      ghost var e := DoOutputs(tone, now, after, resend, send);
      StepKeeps(Current(), e);
      if connected {
        var clear := FlushPendingState(resend);
        if clear {
          EnqueueTone(tone);
          var _ := FlushAudio(now, after, send);
        }
      }
    }

    // Frames from the host ---------------------------------------------------------------

    /** The host changed the output state: an output report, or its audio stream opened. */
    method HandleStateChange(next: DsState, resend: bool, send: bool)
      requires Inv(Current())
      modifies this
      ensures Current() == Step(old(Current()), DoForward(next, resend, send)) && Inv(Current())
    {
      StepKeeps(Current(), DoForward(next, resend, send));
      outputState := next;
      if connected {
        ForwardStateIfChanged(resend, send);
      }
    }

    method HandleToneRoute(next: DsState, tone: bool, resend: bool, send: bool)
      requires Inv(Current())
      modifies this
      ensures Current() == Step(old(Current()), DoRoute(next, tone, resend, send)) && Inv(Current())
    {
      StepKeeps(Current(), DoRoute(next, tone, resend, send));
      toneActive := tone;
      outputState := next;
      if !tone {
        pendingAudio := [];
      }
      if connected {
        ForwardStateIfChanged(resend, send);
      }
    }

    method HandleMicChange(next: DsState, send: bool)
      requires Inv(Current())
      modifies this
      ensures Current() == Step(old(Current()), DoMic(next, send)) && Inv(Current())
    {
      StepKeeps(Current(), DoMic(next, send));
      if connected {
        SendMicState(next, send);
      }
    }

    /** The host opened or closed its microphone: the settings, then the switch. */
    method HandleMicStream(next: DsState, open: bool, send: bool, switch: bool)
      requires Inv(Current())
      modifies this
      ensures Current() == Step(old(Current()), DoMicStream(next, open, send, switch)) && Inv(Current())
    {
      if connected {
        SendMicState(next, send);
        SendMicSwitch(open, switch);
      }
    }

    method HandleAudioOut(chunks: seq<Chunk>)
      requires Inv(Current())
      modifies this
      ensures Current() == Step(old(Current()), DoPush(chunks)) && Inv(Current())
    {
      StepKeeps(Current(), DoPush(chunks));
      if connected {
        PushAudio(chunks);
      }
    }

    method HandleStreamOff()
      requires Inv(Current())
      modifies this
      ensures Current() == Step(old(Current()), DoStreamOff) && Inv(Current())
    {
      StepKeeps(Current(), DoStreamOff);
      pendingAudio := [];
    }

    // Connection -------------------------------------------------------------------------

    method Reset(initial: DsState)
      modifies this
      ensures Current() == Fresh(initial).(connected := old(connected), log := old(log), pushed := old(pushed))
      ensures old(Inv(Current()) && !connected) ==> Inv(Current())
    {
      outputState, reportSequence, micSequence := initial, 0, 0;
      pendingAudio := [];
      lastSent, pendingState, pendingReport := None, None, None;
      nextSend, toneActive := 0, false;
    }

    method CompleteConnection(initial: DsState)
      requires Inv(Current()) && !connected
      modifies this
      ensures Current() == Step(old(Current()), DoConnect(initial)) && Inv(Current())
    {
      StepKeeps(Current(), DoConnect(initial));
      Reset(initial);
      log := log + [Initial(outputState)];
      lastSent := Some(outputState);
      connected := true;
    }

    /** A changed database takes the controller away: what was deferred stays until the next connection. */
    method ReleaseBackend()
      requires Inv(Current())
      modifies this
      ensures Current() == Step(old(Current()), DoRelease) && Inv(Current())
    {
      StepKeeps(Current(), DoRelease);
      pendingAudio := [];
      nextSend := 0;
      toneActive := false;
      connected := false;
    }

    method DropBackend()
      requires Inv(Current())
      modifies this
      ensures Current() == Step(old(Current()), DoDisconnect) && Inv(Current())
    {
      StepKeeps(Current(), DoDisconnect);
      if !connected {
        return;
      }
      pendingState := None;
      pendingReport := None;
      connected := false;
      pendingAudio := [];
      nextSend := 0;
      toneActive := false;
    }
  }
}
