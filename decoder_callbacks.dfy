/** The decode pump: the codec callbacks that feed compressed samples from the
    extractor into the decoder and release its output buffers. The extractor
    is a sequence of samples with a read cursor; every call the callbacks make
    on the decoder, the extractor and the encoder is an entry of an event log. */
module DecoderCallbacks {
  import opened Media

  /** One compressed sample of the selected track. */
  datatype Sample = Sample(size: nat, timeUs: int, flags: BufferFlags)

  /** The description of an output buffer the decoder hands back. */
  datatype BufferInfo = BufferInfo(offset: int, size: int, presentationTimeUs: int, flags: BufferFlags)

  /** Calls made by the callbacks, in the order they are made. */
  datatype Event =
    | GetInputBuffer(index: int)
    | ReadSampleData
    | QueueInputBuffer(index: int, offset: int, size: int, presentationTimeUs: int, flags: BufferFlags)
    | AdvanceExtractor
    | ReleaseExtractor
    | ReleaseOutputBuffer(index: int, render: bool)
    | StopCodec
    | ReleaseCodec
    | SignalEndOfInputStream
    | ForwardError(e: CodecException)

  /** How a callback ends: normally, or with an exception escaping it. */
  datatype Outcome = Returned | Threw(message: string)

  const NoInputBufferMessage: string := "No input buffer available."

  // ---------------------------------------------------------------------------
  // The extractor
  // ---------------------------------------------------------------------------

  /** What `readSampleData` reports at `cursor`: the sample's size, or -1 when
      no sample is left. */
  function SampleSize(samples: seq<Sample>, cursor: nat): int
  {
    if cursor < |samples| then samples[cursor].size else -1
  }

  /** The cursor after `advance`: one sample further, never past the end. */
  function AdvancedCursor(samples: seq<Sample>, cursor: nat): nat
  {
    if cursor < |samples| then cursor + 1 else cursor
  }

  /** The media extractor, reduced to its samples, its read position and
      whether it has been released. Reading or advancing a released extractor
      is an error on the platform, hence the `!released` preconditions. */
  class Extractor {
    const samples: seq<Sample>
    var cursor: nat
    var released: bool

    constructor (samples: seq<Sample>)
      ensures this.samples == samples && cursor == 0 && !released
    {
      this.samples := samples;
      cursor := 0;
      released := false;
    }

    method ReadSampleData() returns (size: int)
      requires !released
      ensures size == SampleSize(samples, cursor)
      ensures size >= 0 <==> cursor < |samples|
    {
      size := SampleSize(samples, cursor);
    }

    method SampleTime() returns (timeUs: int)
      requires !released && cursor < |samples|
      ensures timeUs == samples[cursor].timeUs
    {
      timeUs := samples[cursor].timeUs;
    }

    method SampleFlags() returns (flags: BufferFlags)
      requires !released && cursor < |samples|
      ensures flags == samples[cursor].flags
    {
      flags := samples[cursor].flags;
    }

    /** Moves to the next sample; false when no sample is left. */
    method Advance() returns (more: bool)
      requires !released
      modifies this
      ensures cursor == AdvancedCursor(samples, old(cursor)) && !released
      ensures more <==> cursor < |samples|
    {
      cursor := AdvancedCursor(samples, cursor);
      more := cursor < |samples|;
    }

    method Release()
      requires !released
      modifies this
      ensures released && cursor == old(cursor)
    {
      released := true;
    }
  }

  // ---------------------------------------------------------------------------
  // Input side: specification
  // ---------------------------------------------------------------------------

  /** The state the input callback works on: the extractor's samples and
      cursor, the `isExtractorFinished` flag and whether the extractor has
      been released. */
  datatype InputState = InputState(samples: seq<Sample>, cursor: nat, extractorFinished: bool, extractorReleased: bool)

  /** The invariant the callbacks keep: the cursor is within the samples, a
      finished extractor has been read to the end, and the extractor is
      released exactly when the finished flag is set. */
  predicate Consistent(s: InputState)
  {
    s.cursor <= |s.samples|
    && (s.extractorFinished ==> s.cursor == |s.samples|)
    && (s.extractorReleased <==> s.extractorFinished)
  }

  datatype InputStep = InputStep(outcome: Outcome, next: InputState, effects: seq<Event>)

  /** One call of `onInputBufferAvailable` on input buffer `index`;
      `hasBuffer` is false when the codec has no buffer for that index. */
  function FeedInput(s: InputState, index: int, hasBuffer: bool): (r: InputStep)
    ensures s.extractorFinished ==> r == InputStep(Returned, s, [])
    ensures r.outcome.Threw? <==> !s.extractorFinished && !hasBuffer
    ensures r.outcome.Threw? ==> r.next == s && r.effects == [GetInputBuffer(index)]
    ensures Consistent(s) ==> Consistent(r.next)
    ensures r.next.samples == s.samples
  {
    if s.extractorFinished then InputStep(Returned, s, [])
    else if !hasBuffer then InputStep(Threw(NoInputBufferMessage), s, [GetInputBuffer(index)])
    else
      var cursor := AdvancedCursor(s.samples, s.cursor);
      var finished := !(cursor < |s.samples|);
      InputStep(Returned,
                InputState(s.samples, cursor, finished, s.extractorReleased || finished),
                [GetInputBuffer(index), ReadSampleData] + SampleInput(s, index)
                + [AdvanceExtractor] + EndOfStreamInput(index, finished))
  }

  /** The sample queued when `readSampleData` reports a size of at least 0. */
  function SampleInput(s: InputState, index: int): seq<Event>
  {
    var size := SampleSize(s.samples, s.cursor);
    if size >= 0
    then [QueueInputBuffer(index, 0, size, s.samples[s.cursor].timeUs, s.samples[s.cursor].flags)]
    else []
  }

  /** The empty end-of-stream buffer and the extractor's release, once `advance`
      reports that no sample is left. */
  function EndOfStreamInput(index: int, finished: bool): seq<Event>
  {
    if finished then [QueueInputBuffer(index, 0, 0, 0, BufferFlagEndOfStream), ReleaseExtractor] else []
  }

  /** What is submitted to the decoder by a queued input buffer. */
  datatype Payload = Payload(size: int, presentationTimeUs: int, flags: BufferFlags)

  function PayloadOf(sample: Sample): Payload
  {
    Payload(sample.size, sample.timeUs, sample.flags)
  }

  /** The explicit end-of-stream input: empty, at time 0, flagged. */
  const EndOfStreamPayload: Payload := Payload(0, 0, BufferFlagEndOfStream)

  function SamplePayloads(samples: seq<Sample>): (r: seq<Payload>)
    ensures |r| == |samples|
  {
    seq(|samples|, k requires 0 <= k < |samples| => PayloadOf(samples[k]))
  }

  /** The payload an event submits: one for a queued input buffer, none otherwise. */
  function EventPayload(e: Event): seq<Payload>
  {
    if e.QueueInputBuffer? then [Payload(e.size, e.presentationTimeUs, e.flags)] else []
  }

  /** The payloads of the input buffers queued in `events`, in order. */
  function Payloads(events: seq<Event>): seq<Payload>
  {
    if |events| == 0 then [] else EventPayload(events[0]) + Payloads(events[1..])
  }

  lemma PayloadsCons(e: Event, rest: seq<Event>)
    ensures Payloads([e] + rest) == EventPayload(e) + Payloads(rest)
  {
    assert ([e] + rest)[1..] == rest;
  }

  lemma {:induction false} PayloadsAppend(a: seq<Event>, b: seq<Event>)
    ensures Payloads(a + b) == Payloads(a) + Payloads(b)
  {
    if a == [] {
      assert a + b == b;
    } else {
      var e, t := a[0], a[1..];
      assert a == [e] + t;
      assert a + b == [e] + (t + b);
      PayloadsAppend(t, b);
      PayloadsCons(e, t + b);
      PayloadsCons(e, t);
    }
  }

  lemma PayloadsSingleton(e: Event)
    ensures Payloads([e]) == EventPayload(e)
  {
    assert [e][1..] == [];
  }

  lemma PayloadsPair(e: Event, f: Event)
    ensures Payloads([e, f]) == EventPayload(e) + EventPayload(f)
  {
    assert [e, f] == [e] + [f];
    PayloadsAppend([e], [f]);
    PayloadsSingleton(e);
    PayloadsSingleton(f);
  }

  lemma SampleInputPayloads(s: InputState, index: int)
    requires s.cursor <= |s.samples|
    ensures Payloads(SampleInput(s, index))
            == if s.cursor < |s.samples| then [PayloadOf(s.samples[s.cursor])] else []
  {
    if s.cursor < |s.samples| {
      PayloadsSingleton(SampleInput(s, index)[0]);
    }
  }

  lemma EndOfStreamInputPayloads(index: int, finished: bool)
    ensures Payloads(EndOfStreamInput(index, finished)) == if finished then [EndOfStreamPayload] else []
  {
    if finished {
      PayloadsPair(QueueInputBuffer(index, 0, 0, 0, BufferFlagEndOfStream), ReleaseExtractor);
    }
  }

  /** In one call that reads, the sample under the cursor (if any) is queued
      first, and the end-of-stream buffer follows it exactly when the
      extractor runs out, together with the extractor's release. */
  lemma FeedInputQueues(s: InputState, index: int)
    requires Consistent(s) && !s.extractorFinished
    ensures var r := FeedInput(s, index, true);
            Payloads(r.effects)
              == (if s.cursor < |s.samples| then [PayloadOf(s.samples[s.cursor])] else [])
                 + (if r.next.extractorFinished then [EndOfStreamPayload] else [])
  {
    var r := FeedInput(s, index, true);
    var a, q, b := [GetInputBuffer(index), ReadSampleData], SampleInput(s, index), [AdvanceExtractor];
    var e := EndOfStreamInput(index, r.next.extractorFinished);
    assert r.effects == a + q + b + e;
    PayloadsAppend(a + q + b, e);
    PayloadsAppend(a + q, b);
    PayloadsAppend(a, q);
    PayloadsPair(GetInputBuffer(index), ReadSampleData);
    PayloadsSingleton(AdvanceExtractor);
    SampleInputPayloads(s, index);
    EndOfStreamInputPayloads(index, r.next.extractorFinished);
    assert Payloads(a) == [] && Payloads(b) == [];
  }

  /** One call that reads moves the cursor one sample on, sets the finished
      flag exactly when no sample is left, and releases the extractor exactly
      then. */
  lemma FeedInputAdvances(s: InputState, index: int)
    requires Consistent(s) && !s.extractorFinished
    ensures var r := FeedInput(s, index, true);
            r.next.cursor == AdvancedCursor(s.samples, s.cursor)
            && (r.next.extractorFinished <==> s.cursor + 1 >= |s.samples|)
            && multiset(r.effects)[ReleaseExtractor] == (if r.next.extractorFinished then 1 else 0)
            && AdvanceExtractor in r.effects
  {
  }

  /** Every buffer a call queues, the sample and the end-of-stream buffer
      alike, goes to the input buffer the call was given, at offset 0. */
  lemma FeedInputQueuesOnItsIndex(s: InputState, index: int, hasBuffer: bool)
    ensures var r := FeedInput(s, index, hasBuffer);
            forall ev :: ev in r.effects && ev.QueueInputBuffer? ==> ev.index == index && ev.offset == 0
  {
    var r := FeedInput(s, index, hasBuffer);
    if !s.extractorFinished && hasBuffer {
      var q, e := SampleInput(s, index), EndOfStreamInput(index, r.next.extractorFinished);
      assert r.effects == [GetInputBuffer(index), ReadSampleData] + q + [AdvanceExtractor] + e;
      forall ev | ev in r.effects && ev.QueueInputBuffer?
        ensures ev.index == index && ev.offset == 0
      {
        assert ev in q || ev in e;
      }
    }
  }

  // ---------------------------------------------------------------------------
  // Input side: a series of calls
  // ---------------------------------------------------------------------------

  /** One arrival of an input buffer from the codec. */
  datatype InputCall = InputCall(index: int, hasBuffer: bool)

  datatype InputRun = InputRun(last: InputState, effects: seq<Event>)

  /** The state and the effects after a series of input callbacks. */
  function RunInput(s: InputState, calls: seq<InputCall>): InputRun
    decreases |calls|
  {
    if calls == [] then InputRun(s, [])
    else
      var step := FeedInput(s, calls[0].index, calls[0].hasBuffer);
      var rest := RunInput(step.next, calls[1..]);
      InputRun(rest.last, step.effects + rest.effects)
  }

  /** Once the extractor is finished, input callbacks do nothing at all. */
  lemma {:induction false} FinishedInputIsSilent(s: InputState, calls: seq<InputCall>)
    requires s.extractorFinished
    ensures RunInput(s, calls) == InputRun(s, [])
    decreases |calls|
  {
    if calls != [] {
      FinishedInputIsSilent(s, calls[1..]);
    }
  }

  /** Over any series of input callbacks the extractor is released at most
      once, exactly when the series takes the finished flag from false to
      true, and the flag never returns to false. */
  lemma {:induction false} ExtractorReleasedAtMostOnce(s: InputState, calls: seq<InputCall>)
    requires Consistent(s)
    ensures var run := RunInput(s, calls);
            Consistent(run.last)
            && (s.extractorFinished ==> run.last.extractorFinished)
            && multiset(run.effects)[ReleaseExtractor]
                 == (if !s.extractorFinished && run.last.extractorFinished then 1 else 0)
    decreases |calls|
  {
    if calls == [] {
    } else if s.extractorFinished {
      FinishedInputIsSilent(s, calls);
    } else {
      var step := FeedInput(s, calls[0].index, calls[0].hasBuffer);
      ExtractorReleasedAtMostOnce(step.next, calls[1..]);
      if calls[0].hasBuffer {
        FeedInputAdvances(s, calls[0].index);
      }
      if step.next.extractorFinished {
        FinishedInputIsSilent(step.next, calls[1..]);
      }
    }
  }

  predicate AllHaveBuffers(calls: seq<InputCall>)
  {
    forall k :: 0 <= k < |calls| ==> calls[k].hasBuffer
  }

  lemma AllHaveBuffersTail(calls: seq<InputCall>)
    requires calls != [] && AllHaveBuffers(calls)
    ensures calls[0].hasBuffer && AllHaveBuffers(calls[1..])
  {
    forall k | 0 <= k < |calls[1..]| ensures calls[1..][k].hasBuffer {
      assert calls[1..][k] == calls[k + 1];
    }
  }

  /** The payloads `n` input callbacks with buffers should queue from cursor
      `cursor`: the next `n` samples (as many as are left), then, once the
      calls reach the end of the stream, one empty end-of-stream buffer. */
  function ExpectedPayloads(samples: seq<Sample>, cursor: nat, n: nat): seq<Payload>
    requires cursor <= |samples|
  {
    var end := if cursor + n < |samples| then cursor + n else |samples|;
    SamplePayloads(samples[cursor..end]) + (if n > 0 && cursor + n >= |samples| then [EndOfStreamPayload] else [])
  }

  lemma ExpectedPayloadsNone(samples: seq<Sample>, cursor: nat)
    requires cursor <= |samples|
    ensures ExpectedPayloads(samples, cursor, 0) == []
  {
    assert SamplePayloads(samples[cursor..cursor]) == [];
  }

  lemma ExpectedPayloadsStep(samples: seq<Sample>, cursor: nat, n: nat)
    requires cursor + 1 < |samples| && n > 0
    ensures ExpectedPayloads(samples, cursor, n)
            == [PayloadOf(samples[cursor])] + ExpectedPayloads(samples, cursor + 1, n - 1)
  {
    var end := if cursor + n < |samples| then cursor + n else |samples|;
    var tail := if cursor + n >= |samples| then [EndOfStreamPayload] else [];
    assert SamplePayloads(samples[cursor..end])
           == [PayloadOf(samples[cursor])] + SamplePayloads(samples[cursor + 1..end]);
  }

  lemma ExpectedPayloadsLast(samples: seq<Sample>, cursor: nat, n: nat)
    requires cursor <= |samples| && cursor + 1 >= |samples| && n > 0
    ensures ExpectedPayloads(samples, cursor, n)
            == (if cursor < |samples| then [PayloadOf(samples[cursor])] else []) + [EndOfStreamPayload]
  {
    if cursor < |samples| {
      assert SamplePayloads(samples[cursor..|samples|]) == [PayloadOf(samples[cursor])];
    } else {
      assert SamplePayloads(samples[cursor..|samples|]) == [];
    }
  }

  /** What a series of `calls` does from state `s`: it queues the expected
      payloads, and leaves the extractor finished exactly when the calls reach
      the end of the stream. */
  ghost predicate QueuesSamplesThenEndOfStream(s: InputState, calls: seq<InputCall>)
    requires s.cursor <= |s.samples|
  {
    Payloads(RunInput(s, calls).effects) == ExpectedPayloads(s.samples, s.cursor, |calls|)
    && (RunInput(s, calls).last.extractorFinished <==> |calls| > 0 && s.cursor + |calls| >= |s.samples|)
  }

  /** The call that exhausts the extractor queues the last sample (if any)
      and the end-of-stream buffer; the calls after it do nothing. */
  lemma FinalCallQueuesEndOfStream(s: InputState, calls: seq<InputCall>)
    requires Consistent(s) && !s.extractorFinished
    requires calls != [] && calls[0].hasBuffer
    requires FeedInput(s, calls[0].index, true).next.extractorFinished
    ensures QueuesSamplesThenEndOfStream(s, calls)
  {
    var step := FeedInput(s, calls[0].index, true);
    FinishedInputIsSilent(step.next, calls[1..]);
    assert RunInput(s, calls) == InputRun(step.next, step.effects + []);
    assert step.effects + [] == step.effects;
    FeedInputQueues(s, calls[0].index);
    FeedInputAdvances(s, calls[0].index);
    ExpectedPayloadsLast(s.samples, s.cursor, |calls|);
  }

  /** The first call of a series, followed by the rest of the series. */
  lemma RunInputFirst(s: InputState, calls: seq<InputCall>)
    requires calls != []
    ensures var step := FeedInput(s, calls[0].index, calls[0].hasBuffer);
            var rest := RunInput(step.next, calls[1..]);
            RunInput(s, calls) == InputRun(rest.last, step.effects + rest.effects)
  {
  }

  /** A reading call that leaves samples behind queues exactly the sample
      under the cursor and moves the cursor one on. */
  lemma FeedInputContinues(s: InputState, index: int)
    requires Consistent(s) && !s.extractorFinished
    requires !FeedInput(s, index, true).next.extractorFinished
    ensures var r := FeedInput(s, index, true);
            r.next.samples == s.samples && r.next.cursor == s.cursor + 1
            && s.cursor + 1 < |s.samples|
            && Payloads(r.effects) == [PayloadOf(s.samples[s.cursor])]
  {
    FeedInputAdvances(s, index);
    FeedInputQueues(s, index);
  }

  /** A call that leaves samples to read queues the sample under the cursor
      in front of whatever the following calls queue. */
  lemma ContinuingCallQueuesSample(s: InputState, calls: seq<InputCall>)
    requires Consistent(s) && !s.extractorFinished
    requires calls != [] && calls[0].hasBuffer
    requires !FeedInput(s, calls[0].index, true).next.extractorFinished
    requires QueuesSamplesThenEndOfStream(FeedInput(s, calls[0].index, true).next, calls[1..])
    ensures QueuesSamplesThenEndOfStream(s, calls)
  {
    var step := FeedInput(s, calls[0].index, true);
    var rest := RunInput(step.next, calls[1..]);
    RunInputFirst(s, calls);
    FeedInputContinues(s, calls[0].index);
    PayloadsAppend(step.effects, rest.effects);
    ExpectedPayloadsStep(s.samples, s.cursor, |calls|);
  }

  /** Fed with input buffers, the callbacks queue the remaining samples in
      order, one per call, and after the last of them one empty
      end-of-stream buffer; then the extractor is finished. */
  lemma {:induction false} InputQueuesSamplesThenEndOfStream(s: InputState, calls: seq<InputCall>)
    requires Consistent(s) && !s.extractorFinished
    requires AllHaveBuffers(calls)
    ensures QueuesSamplesThenEndOfStream(s, calls)
    decreases |calls|
  {
    if calls == [] {
      ExpectedPayloadsNone(s.samples, s.cursor);
    } else {
      AllHaveBuffersTail(calls);
      var step := FeedInput(s, calls[0].index, true);
      if step.next.extractorFinished {
        FinalCallQueuesEndOfStream(s, calls);
      } else {
        InputQueuesSamplesThenEndOfStream(step.next, calls[1..]);
        ContinuingCallQueuesSample(s, calls);
      }
    }
  }

  /** The state of a freshly created callback object over an unread extractor. */
  function InitialInputState(samples: seq<Sample>): (s: InputState)
    ensures Consistent(s) && !s.extractorFinished
  {
    InputState(samples, 0, false, false)
  }

  /** Feeding a whole stream: with at least one call per sample (and at least
      one call), every sample is queued in order, then exactly one
      end-of-stream buffer, and the extractor is released exactly once. */
  lemma WholeStreamFed(samples: seq<Sample>, calls: seq<InputCall>)
    requires AllHaveBuffers(calls)
    requires |calls| >= |samples| && |calls| > 0
    ensures var run := RunInput(InitialInputState(samples), calls);
            Payloads(run.effects) == SamplePayloads(samples) + [EndOfStreamPayload]
            && run.last.extractorFinished
            && multiset(run.effects)[ReleaseExtractor] == 1
  {
    InputQueuesSamplesThenEndOfStream(InitialInputState(samples), calls);
    ExtractorReleasedAtMostOnce(InitialInputState(samples), calls);
    assert samples[0..|samples|] == samples;
  }

  // ---------------------------------------------------------------------------
  // Output side: specification
  // ---------------------------------------------------------------------------

  predicate IsCodecConfig(info: BufferInfo)
  {
    HasFlag(info.flags, BufferFlagCodecConfig)
  }

  /** A buffer that ends the stream: end-of-stream set, codec-config not set. */
  predicate EndsStream(info: BufferInfo)
  {
    !IsCodecConfig(info) && HasFlag(info.flags, BufferFlagEndOfStream)
  }

  /** The calls made by `onOutputBufferAvailable` for output buffer `index`. */
  function OutputEffects(index: int, info: BufferInfo): (r: seq<Event>)
    ensures |r| >= 1 && r[0] == ReleaseOutputBuffer(index, !IsCodecConfig(info) && info.size != 0)
    ensures forall k :: 1 <= k < |r| ==> !r[k].ReleaseOutputBuffer?
    ensures |r| > 1 <==> EndsStream(info)
    ensures EndsStream(info) ==> r[1..] == [StopCodec, ReleaseCodec, SignalEndOfInputStream]
  {
    if IsCodecConfig(info) then [ReleaseOutputBuffer(index, false)]
    else
      [ReleaseOutputBuffer(index, info.size != 0)]
      + (if HasFlag(info.flags, BufferFlagEndOfStream) then [StopCodec, ReleaseCodec, SignalEndOfInputStream] else [])
  }

  /** A codec-config buffer is released without rendering and causes nothing
      else, whatever other flags it carries. */
  lemma CodecConfigOnlyReleased(index: int, info: BufferInfo)
    requires IsCodecConfig(info)
    ensures OutputEffects(index, info) == [ReleaseOutputBuffer(index, false)]
  {
  }

  // ---------------------------------------------------------------------------
  // The callback object
  // ---------------------------------------------------------------------------

  class DecoderCallbacks {
    const extractor: Extractor
    var isExtractorFinished: bool
    var isDecoderDone: bool
    /** Calls made on the decoder, the extractor, the encoder and the error
        listener. */
    ghost var events: seq<Event>

    ghost function InputView(): InputState
      reads this, extractor
    {
      InputState(extractor.samples, extractor.cursor, isExtractorFinished, extractor.released)
    }

    ghost predicate Valid()
      reads this, extractor
    {
      Consistent(InputView())
    }

    constructor (extractor: Extractor)
      requires extractor.cursor <= |extractor.samples| && !extractor.released
      ensures Valid() && this.extractor == extractor
      ensures InputView() == InputState(extractor.samples, extractor.cursor, false, false)
      ensures !isDecoderDone && events == []
    {
      this.extractor := extractor;
      isExtractorFinished := false;
      isDecoderDone := false;
      events := [];
    }

    /** Fills input buffer `index` with the next sample and, once the
        extractor runs out, queues the end-of-stream buffer and releases the
        extractor. `hasBuffer` is whether the codec returned a buffer. */
    method OnInputBufferAvailable(index: int, hasBuffer: bool) returns (outcome: Outcome)
      requires Valid()
      modifies this, extractor
      ensures Valid()
      ensures var step := FeedInput(old(InputView()), index, hasBuffer);
              outcome == step.outcome && InputView() == step.next && events == old(events) + step.effects
      ensures isDecoderDone == old(isDecoderDone)
      ensures old(isExtractorFinished) ==> isExtractorFinished
    {
      if isExtractorFinished {
        return Returned;
      }
      ghost var effects := [GetInputBuffer(index)];
      if !hasBuffer {
        events := events + effects;
        return Threw(NoInputBufferMessage);
      }
      var size := extractor.ReadSampleData();
      effects := effects + [ReadSampleData];
      if size >= 0 {
        var presentationTime := extractor.SampleTime();
        var flags := extractor.SampleFlags();
        effects := effects + [QueueInputBuffer(index, 0, size, presentationTime, flags)];
      }
      var more := extractor.Advance();
      effects := effects + [AdvanceExtractor];
      isExtractorFinished := !more;
      if isExtractorFinished {
        effects := effects + [QueueInputBuffer(index, 0, 0, 0, BufferFlagEndOfStream)];
        extractor.Release();
        effects := effects + [ReleaseExtractor];
      }
      events := events + effects;
      outcome := Returned;
    }

    /** Releases output buffer `index`, rendering it when it has content, and
        tears the session down at end of stream. */
    method OnOutputBufferAvailable(index: int, info: BufferInfo)
      requires Valid()
      modifies this
      ensures Valid() && InputView() == old(InputView())
      ensures events == old(events) + OutputEffects(index, info)
      ensures isDecoderDone == (old(isDecoderDone) || EndsStream(info))
    {
      if HasFlag(info.flags, BufferFlagCodecConfig) {
        events := events + [ReleaseOutputBuffer(index, false)];
        return;
      }
      var render := info.size != 0;
      events := events + [ReleaseOutputBuffer(index, render)];
      if HasFlag(info.flags, BufferFlagEndOfStream) {
        isDecoderDone := true;
        events := events + [StopCodec, ReleaseCodec, SignalEndOfInputStream];
      }
    }

    /** Hands a codec error to the error listener unchanged. */
    method OnError(e: CodecException)
      requires Valid()
      modifies this
      ensures Valid() && InputView() == old(InputView())
      ensures isDecoderDone == old(isDecoderDone)
      ensures events == old(events) + [ForwardError(e)]
    {
      events := events + [ForwardError(e)];
    }
  }
}
