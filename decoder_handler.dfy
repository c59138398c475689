/** The decision logic of `DecoderHandler`: choosing the track to decode,
    choosing the first codec that accepts the format, and reacting to codec
    errors. Platform calls are abstract inputs (the track MIME strings, one
    record per codec candidate) or entries of an action log. */
module DecoderHandler {
  import opened Media

  /** The sentinel `getTrackIndex` returns when no track matches. */
  const NoTrack: int := -5

  // ---------------------------------------------------------------------------
  // Track selection
  // ---------------------------------------------------------------------------

  predicate StartsWith(s: string, prefix: string)
  {
    |prefix| <= |s| && s[..|prefix|] == prefix
  }

  predicate IsVideoFormat(format: MediaFormat)
  {
    StartsWith(format.mime, "video/")
  }

  predicate IsAudioFormat(format: MediaFormat)
  {
    StartsWith(format.mime, "audio/")
  }

  /** The test applied to each track: video tracks when `isAudio` is false,
      audio tracks when it is true. */
  predicate IsWanted(format: MediaFormat, isAudio: bool)
  {
    (!isAudio && IsVideoFormat(format)) || (isAudio && IsAudioFormat(format))
  }

  /** First wanted track at or after `from`, or `NoTrack`. */
  function TrackIndexFrom(tracks: seq<MediaFormat>, isAudio: bool, from: nat): (r: int)
    requires from <= |tracks|
    decreases |tracks| - from
    ensures r == NoTrack || (from <= r < |tracks| && IsWanted(tracks[r], isAudio))
    ensures r != NoTrack ==> forall j :: from <= j < r ==> !IsWanted(tracks[j], isAudio)
    ensures r == NoTrack <==> forall j :: from <= j < |tracks| ==> !IsWanted(tracks[j], isAudio)
  {
    if from == |tracks| then NoTrack
    else if IsWanted(tracks[from], isAudio) then from
    else TrackIndexFrom(tracks, isAudio, from + 1)
  }

  /** The track `getTrackIndex` chooses: the smallest wanted index, or `NoTrack`. */
  function TrackIndex(tracks: seq<MediaFormat>, isAudio: bool): int
  {
    TrackIndexFrom(tracks, isAudio, 0)
  }

  // ---------------------------------------------------------------------------
  // Codec selection
  // ---------------------------------------------------------------------------

  /** What happens to one entry of the codec list at each stage of
      `createDecoder`: the capability query throws, the format is reported
      unsupported, instantiation fails, configuration fails. */
  datatype CodecCandidate = CodecCandidate(capsThrows: bool, supported: bool, createFails: bool, configureFails: bool)

  /** A codec instance is identified by the position of its candidate. */
  type CodecId = nat

  /** Effects `createDecoder` has on codec instances. */
  datatype CodecAction = Create(codec: CodecId) | Configure(codec: CodecId) | Release(codec: CodecId) | Start(codec: CodecId)

  /** A candidate that passes all four stages. */
  predicate Usable(c: CodecCandidate)
  {
    !c.capsThrows && c.supported && !c.createFails && !c.configureFails
  }

  /** The actions taken while trying candidate `c` at position `i`. */
  function AttemptLog(c: CodecCandidate, i: CodecId): (r: seq<CodecAction>)
    ensures forall a :: a in r ==> a.codec == i
  {
    if c.capsThrows || !c.supported || c.createFails then []
    else if c.configureFails then [Create(i), Configure(i), Release(i)]
    else [Create(i), Configure(i), Start(i)]
  }

  /** The first usable candidate at or after `from`. */
  function FirstUsableFrom(cs: seq<CodecCandidate>, from: nat): (r: Option<CodecId>)
    requires from <= |cs|
    decreases |cs| - from
    ensures r.Some? ==> from <= r.value < |cs| && Usable(cs[r.value])
    ensures r.Some? ==> forall j :: from <= j < r.value ==> !Usable(cs[j])
    ensures r.None? <==> forall j :: from <= j < |cs| ==> !Usable(cs[j])
  {
    if from == |cs| then None
    else if Usable(cs[from]) then Some(from)
    else FirstUsableFrom(cs, from + 1)
  }

  function FirstUsable(cs: seq<CodecCandidate>): Option<CodecId>
  {
    FirstUsableFrom(cs, 0)
  }

  /** The actions of `createDecoder` from position `from` on: every candidate is
      tried in order up to and including the first usable one. */
  function SelectionLog(cs: seq<CodecCandidate>, from: nat): seq<CodecAction>
    requires from <= |cs|
    decreases |cs| - from
  {
    if from == |cs| then []
    else if Usable(cs[from]) then AttemptLog(cs[from], from)
    else AttemptLog(cs[from], from) + SelectionLog(cs, from + 1)
  }

  /** `SelectionLog` unfolded once at position `i`. */
  lemma SelectionLogStep(cs: seq<CodecCandidate>, i: nat)
    requires i < |cs|
    ensures !Usable(cs[i]) ==> FirstUsableFrom(cs, i) == FirstUsableFrom(cs, i + 1)
    ensures Usable(cs[i]) ==> FirstUsableFrom(cs, i) == Some(i)
    ensures !Usable(cs[i]) ==> SelectionLog(cs, i) == AttemptLog(cs[i], i) + SelectionLog(cs, i + 1)
    ensures Usable(cs[i]) ==> SelectionLog(cs, i) == [Create(i), Configure(i), Start(i)]
    ensures cs[i].capsThrows || !cs[i].supported || cs[i].createFails ==> AttemptLog(cs[i], i) == []
    ensures !cs[i].capsThrows && cs[i].supported && !cs[i].createFails && cs[i].configureFails ==>
              AttemptLog(cs[i], i) == [Create(i), Configure(i), Release(i)]
  {
  }

  /** Appending the attempt on candidate `i` to a log that accounts for the
      candidates before it accounts for candidate `i` as well. */
  lemma SelectionLogExtend(cs: seq<CodecCandidate>, i: nat, log: seq<CodecAction>)
    requires i < |cs|
    requires log + SelectionLog(cs, i) == SelectionLog(cs, 0)
    ensures !Usable(cs[i]) ==> (log + AttemptLog(cs[i], i)) + SelectionLog(cs, i + 1) == SelectionLog(cs, 0)
    ensures Usable(cs[i]) ==> log + AttemptLog(cs[i], i) == SelectionLog(cs, 0)
  {
    var attempt, rest := AttemptLog(cs[i], i), SelectionLog(cs, i + 1);
    if !Usable(cs[i]) {
      assert SelectionLog(cs, i) == attempt + rest;
      assert (log + attempt) + rest == log + (attempt + rest);
    } else {
      assert SelectionLog(cs, i) == attempt;
    }
  }

  /** One past the last candidate `createDecoder` looks at. */
  function ExaminedBound(cs: seq<CodecCandidate>, from: nat): (r: nat)
    requires from <= |cs|
  {
    match FirstUsableFrom(cs, from)
    case Some(k) => k + 1
    case None => |cs|
  }

  /** An action is in the log exactly when it belongs to the attempt on an
      examined candidate: nothing is done to a candidate after the chosen one. */
  lemma {:induction false} SelectionLogMembership(cs: seq<CodecCandidate>, from: nat, a: CodecAction)
    requires from <= |cs|
    ensures ExaminedBound(cs, from) <= |cs|
    ensures a in SelectionLog(cs, from) <==>
              from <= a.codec < ExaminedBound(cs, from) && a in AttemptLog(cs[a.codec], a.codec)
    decreases |cs| - from
  {
    if from == |cs| {
      assert SelectionLog(cs, from) == [];
    } else if Usable(cs[from]) {
      assert FirstUsableFrom(cs, from) == Some(from);
      assert SelectionLog(cs, from) == AttemptLog(cs[from], from);
    } else {
      SelectionLogMembership(cs, from + 1, a);
      assert FirstUsableFrom(cs, from) == FirstUsableFrom(cs, from + 1);
      assert SelectionLog(cs, from) == AttemptLog(cs[from], from) + SelectionLog(cs, from + 1);
    }
  }

  /** The log takes the candidates one at a time, in list order: an action on
      a later candidate never comes before an action on an earlier one, so a
      candidate that fails configuration is released before the next
      candidate is touched. */
  lemma {:induction false} SelectionLogOrdered(cs: seq<CodecCandidate>, from: nat, p: nat, q: nat)
    requires from <= |cs|
    requires p < q < |SelectionLog(cs, from)|
    ensures from <= SelectionLog(cs, from)[p].codec <= SelectionLog(cs, from)[q].codec
    decreases |cs| - from
  {
    var log := SelectionLog(cs, from);
    assert from < |cs|;
    var attempt, rest := AttemptLog(cs[from], from), SelectionLog(cs, from + 1);
    if Usable(cs[from]) {
      assert log == attempt;
      assert log[p] in attempt && log[q] in attempt;
    } else {
      assert log == attempt + rest;
      if p < |attempt| {
        assert log[p] in attempt;
        if q < |attempt| {
          assert log[q] in attempt;
        } else {
          assert log[q] == rest[q - |attempt|];
          SelectionLogMembership(cs, from + 1, log[q]);
        }
      } else {
        assert log[p] == rest[p - |attempt|] && log[q] == rest[q - |attempt|];
        SelectionLogOrdered(cs, from + 1, p - |attempt|, q - |attempt|);
      }
    }
  }

  /** A codec that fails configuration is released before any action on a
      later candidate, and nothing is done to it after its release. */
  lemma {:induction false} ReleasedBeforeLaterActions(cs: seq<CodecCandidate>, from: nat, p: nat, q: nat)
    requires from <= |cs|
    requires p < q < |SelectionLog(cs, from)|
    requires SelectionLog(cs, from)[p].Release?
    ensures SelectionLog(cs, from)[p].codec < SelectionLog(cs, from)[q].codec
    decreases |cs| - from
  {
    var log := SelectionLog(cs, from);
    assert from < |cs|;
    assert !Usable(cs[from]);
    var attempt, rest := AttemptLog(cs[from], from), SelectionLog(cs, from + 1);
    assert log == attempt + rest;
    if p < |attempt| {
      assert attempt == [Create(from), Configure(from), Release(from)];
      assert log[q] == rest[q - 3];
      SelectionLogMembership(cs, from + 1, log[q]);
    } else {
      assert log[p] == rest[p - |attempt|] && log[q] == rest[q - |attempt|];
      ReleasedBeforeLaterActions(cs, from + 1, p - |attempt|, q - |attempt|);
    }
  }

  /** When a codec is chosen, no later candidate appears in the log. */
  lemma NoCandidateAfterChosenExamined(cs: seq<CodecCandidate>, a: CodecAction)
    requires FirstUsable(cs).Some?
    requires a in SelectionLog(cs, 0)
    ensures a.codec <= FirstUsable(cs).value
  {
    SelectionLogMembership(cs, 0, a);
  }

  /** A candidate whose capability query throws, or that does not support the
      format, or that fails to instantiate, never has a codec created. */
  lemma SkippedCandidateNeverCreated(cs: seq<CodecCandidate>, i: CodecId)
    requires i < |cs|
    requires cs[i].capsThrows || !cs[i].supported || cs[i].createFails
    ensures Create(i) !in SelectionLog(cs, 0)
    ensures Configure(i) !in SelectionLog(cs, 0)
  {
    SelectionLogMembership(cs, 0, Create(i));
    SelectionLogMembership(cs, 0, Configure(i));
  }

  /** Exactly the chosen codec is started. */
  lemma StartedIffChosen(cs: seq<CodecCandidate>, i: CodecId)
    ensures Start(i) in SelectionLog(cs, 0) <==> FirstUsable(cs) == Some(i)
  {
    SelectionLogMembership(cs, 0, Start(i));
  }

  /** Every codec that is created is either released or started, never both:
      the chosen one is started and not released, every other one is released. */
  lemma CreatedCodecReleasedUnlessChosen(cs: seq<CodecCandidate>, i: CodecId)
    requires Create(i) in SelectionLog(cs, 0)
    ensures Release(i) in SelectionLog(cs, 0) <==> FirstUsable(cs) != Some(i)
    ensures Start(i) in SelectionLog(cs, 0) <==> FirstUsable(cs) == Some(i)
  {
    SelectionLogMembership(cs, 0, Create(i));
    SelectionLogMembership(cs, 0, Release(i));
    SelectionLogMembership(cs, 0, Start(i));
  }

  /** The log of a successful selection ends with the chosen codec being
      created, configured and started, in that order. */
  lemma {:induction false} ChosenStartedLast(cs: seq<CodecCandidate>, from: nat)
    requires from <= |cs|
    requires FirstUsableFrom(cs, from).Some?
    ensures var k := FirstUsableFrom(cs, from).value;
            var log := SelectionLog(cs, from);
            |log| >= 3 && log[|log| - 3..] == [Create(k), Configure(k), Start(k)]
    decreases |cs| - from
  {
    if !Usable(cs[from]) {
      ChosenStartedLast(cs, from + 1);
    }
  }

  // ---------------------------------------------------------------------------
  // Error severity
  // ---------------------------------------------------------------------------

  /** The three branches of `handleError`. */
  datatype ErrorResponse = RestartSession | ReportError | IgnoreError

  function ErrorResponseFor(e: CodecException): (r: ErrorResponse)
    ensures r == RestartSession <==> e.isRecoverable
    ensures r == ReportError <==> !e.isRecoverable && !e.isTransient
    ensures r == IgnoreError <==> !e.isRecoverable && e.isTransient
  {
    if e.isRecoverable then RestartSession
    else if !e.isTransient then ReportError
    else IgnoreError
  }

  /** Effects on the decoder session and on the error callback. */
  datatype SessionEvent =
    | DecoderStop(codec: CodecId)
    | DecoderConfigure(codec: CodecId)
    | DecoderStart(codec: CodecId)
    | ErrorCallback(e: CodecException)

  /** What `handleError` does with the current decoder (the safe calls
      `decoder?.stop()` and so on do nothing when there is no decoder). */
  function ErrorEffects(decoder: Option<CodecId>, e: CodecException): (r: seq<SessionEvent>)
    ensures ErrorCallback(e) in r <==> !e.isRecoverable && !e.isTransient
    ensures !e.isRecoverable && !e.isTransient ==> r == [ErrorCallback(e)]
    ensures e.isRecoverable && decoder.Some? ==>
              r == [DecoderStop(decoder.value), DecoderConfigure(decoder.value), DecoderStart(decoder.value)]
    ensures e.isRecoverable && decoder.None? ==> r == []
    ensures e.isTransient && !e.isRecoverable ==> r == []
  {
    match ErrorResponseFor(e)
    case RestartSession =>
      if decoder.Some? then [DecoderStop(decoder.value), DecoderConfigure(decoder.value), DecoderStart(decoder.value)]
      else []
    case ReportError => [ErrorCallback(e)]
    case IgnoreError => []
  }

  /** The effects of handling a series of errors one after another. */
  function ErrorEffectsAll(decoder: Option<CodecId>, es: seq<CodecException>): seq<SessionEvent>
  {
    if es == [] then [] else ErrorEffects(decoder, es[0]) + ErrorEffectsAll(decoder, es[1..])
  }

  /** Recoverable errors are never escalated, however many arrive: each one
      restarts the session once more and nothing bounds the number of restarts. */
  lemma {:induction false} RecoverableErrorsNeverEscalate(decoder: Option<CodecId>, es: seq<CodecException>)
    requires forall k :: 0 <= k < |es| ==> es[k].isRecoverable
    ensures forall ev :: ev in ErrorEffectsAll(decoder, es) ==> !ev.ErrorCallback?
    ensures |ErrorEffectsAll(decoder, es)| == if decoder.Some? then 3 * |es| else 0
  {
    if es != [] {
      RecoverableErrorsNeverEscalate(decoder, es[1..]);
    }
  }

  // ---------------------------------------------------------------------------
  // The handler object
  // ---------------------------------------------------------------------------

  class DecoderHandler {
    /** The formats of the extractor's tracks, in track order. */
    const tracks: seq<MediaFormat>
    /** The decoder session, if one was created. */
    var decoder: Option<CodecId>
    /** Calls made on the decoder session and on the error callback. */
    ghost var events: seq<SessionEvent>

    constructor (tracks: seq<MediaFormat>, decoder: Option<CodecId>)
      ensures this.tracks == tracks && this.decoder == decoder && events == []
    {
      this.tracks := tracks;
      this.decoder := decoder;
      events := [];
    }

    /** Scans the tracks in order and returns the first wanted one. */
    method GetTrackIndex(isAudio: bool) returns (index: int)
      ensures index == TrackIndex(tracks, isAudio)
    {
      var i := 0;
      while i < |tracks|
        invariant 0 <= i <= |tracks|
        invariant forall j :: 0 <= j < i ==> !IsWanted(tracks[j], isAudio)
      {
        if IsWanted(tracks[i], isAudio) {
          return i;
        }
        i := i + 1;
      }
      return NoTrack;
    }

    /** The format of the chosen track, or none when no track matches. */
    method GetInputFormat(isAudio: bool) returns (format: Option<MediaFormat>)
      ensures format.None? <==> forall j :: 0 <= j < |tracks| ==> !IsWanted(tracks[j], isAudio)
      ensures format.Some? ==> 0 <= TrackIndex(tracks, isAudio) < |tracks|
                               && format.value == tracks[TrackIndex(tracks, isAudio)]
    {
      var trackIndex := GetTrackIndex(isAudio);
      if trackIndex == NoTrack {
        format := None;
      } else {
        format := Some(tracks[trackIndex]);
      }
    }

    /** One pass of the loop in `createDecoder`: the capability query, the
        support check, instantiation and configuration of a single candidate.
        `started` is true when the candidate passed every stage and was started. */
    method TryCandidate(info: CodecCandidate, i: CodecId) returns (started: bool, actions: seq<CodecAction>)
      ensures started <==> Usable(info)
      ensures actions == AttemptLog(info, i)
    {
      actions := [];
      if info.capsThrows {
        return false, actions;
      }
      var formatSupported := info.supported;
      if !formatSupported {
        return false, actions;
      }
      if info.createFails {
        return false, actions;
      }
      actions := actions + [Create(i), Configure(i)];
      if info.configureFails {
        actions := actions + [Release(i)];
        return false, actions;
      }
      actions := actions + [Start(i)];
      return true, actions;
    }

    /** Walks the codec list and returns the first candidate that supports the
        format, instantiates and configures; that codec is started. */
    method CreateDecoder(codecInfos: seq<CodecCandidate>) returns (codec: Option<CodecId>, log: seq<CodecAction>)
      ensures codec == FirstUsable(codecInfos)
      ensures log == SelectionLog(codecInfos, 0)
    {
      log := [];
      var i := 0;
      while i < |codecInfos|
        invariant 0 <= i <= |codecInfos|
        invariant FirstUsableFrom(codecInfos, i) == FirstUsable(codecInfos)
        invariant log + SelectionLog(codecInfos, i) == SelectionLog(codecInfos, 0)
      {
        var started, actions := TryCandidate(codecInfos[i], i);
        SelectionLogStep(codecInfos, i);
        SelectionLogExtend(codecInfos, i, log);
        log := log + actions;
        if started {
          return Some(i), log;
        }
        i := i + 1;
      }
      return None, log;
    }

    /** Reacts to a codec error according to its severity. */
    method HandleError(e: CodecException)
      modifies this
      ensures decoder == old(decoder)
      ensures events == old(events) + ErrorEffects(decoder, e)
    {
      if e.isRecoverable {
        if decoder.Some? {
          events := events + [DecoderStop(decoder.value)];
          events := events + [DecoderConfigure(decoder.value)];
          events := events + [DecoderStart(decoder.value)];
        }
      } else if !e.isTransient {
        events := events + [ErrorCallback(e)];
      }
    }
  }
}
