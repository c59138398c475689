# Decoder adapter of compressorlib, modelled in Dafny

compressorlib drives Android's `MediaCodec` through two classes.
`DecoderHandler` picks the track to decode and the first codec that accepts
its format, and it reacts to codec errors. `DecoderCallbacks` is the
asynchronous callback object of the decoder. It feeds compressed samples
from the `MediaExtractor` into the decoder's input buffers. It releases
(and renders) the decoder's output buffers. At end of stream it tears the
decoder down and signals the encoder.

The model replaces every platform object by what the adapter reads from it
and does to it:

- a track is its `MediaFormat`, of which only the MIME string is inspected;
- a codec-list entry is a `CodecCandidate` of four booleans, one per stage
  of `createDecoder` (capability query throws, format supported,
  instantiation fails, configuration fails);
- the extractor is a class holding a sequence of samples, a read cursor and
  a released flag;
- every call on a codec, the extractor, the encoder or an error listener is
  an entry appended to a ghost event log (`CodecAction`, `SessionEvent`,
  `Event`).

Files:

- `media.dfy` (module `Media`): the shared platform values. These are the
  nullable wrapper, the track format, the codec exception's two flags, and
  the buffer flag bits `BUFFER_FLAG_CODEC_CONFIG = 2` and
  `BUFFER_FLAG_END_OF_STREAM = 4` as 32-bit vectors.
- `decoder_handler.dfy` (module `DecoderHandler`) holds three parts:
  - track selection: a recursive first-match function, and a loop method
    proved equal to it;
  - codec selection: reference functions `FirstUsable` and `SelectionLog`,
    the `createDecoder` loop proved equal to them, and lemmas on the log;
  - the `handleError` decision table.
- `decoder_callbacks.dfy` (module `DecoderCallbacks`) holds four parts:
  - the extractor class;
  - the pure step functions `FeedInput` and `OutputEffects`;
  - lemmas about one input call and about any series of input calls;
  - the callback class, whose methods are proved to perform exactly those
    steps on their fields and on the event log.

## Model

| member | source | states |
|---|---|---|
| DecoderHandler.TrackIndexFrom | compressorlib/src/main/java/us/ststephens/compressorlib/DecoderHandler.kt:106-121 | The result is either a track whose MIME starts with "video/" (`isAudio` false) or "audio/" (`isAudio` true) and every earlier track is unwanted, or it is `NoTrack`. It is `NoTrack` exactly when no track from the start position on is wanted. |
| DecoderHandler.DecoderHandler.GetTrackIndex | compressorlib/src/main/java/us/ststephens/compressorlib/DecoderHandler.kt:106-115 | The scanning loop returns `TrackIndex`: the smallest wanted index, or -5 when no track matches, including when there are no tracks. |
| DecoderHandler.DecoderHandler.GetInputFormat | compressorlib/src/main/java/us/ststephens/compressorlib/DecoderHandler.kt:101-104 | The result is null exactly when no track is wanted. Otherwise it is the format of the chosen track. |
| DecoderHandler.FirstUsableFrom | compressorlib/src/main/java/us/ststephens/compressorlib/DecoderHandler.kt:69-98 | The chosen candidate passes all four stages and every earlier candidate fails one. The result is null exactly when no candidate passes every stage. |
| DecoderHandler.AttemptLog | compressorlib/src/main/java/us/ststephens/compressorlib/DecoderHandler.kt:71-95 | Trying one candidate touches only that candidate's codec. |
| DecoderHandler.DecoderHandler.TryCandidate | compressorlib/src/main/java/us/ststephens/compressorlib/DecoderHandler.kt:71-95 | One loop pass starts the codec exactly when the candidate is usable. Its actions are the candidate's attempt: none if it is skipped; create, configure, release if configuration fails; create, configure, start otherwise. |
| DecoderHandler.DecoderHandler.CreateDecoder | compressorlib/src/main/java/us/ststephens/compressorlib/DecoderHandler.kt:65-99 | The loop returns the first usable candidate (or null) and logs exactly `SelectionLog`: the attempts on the candidates up to the chosen one. |
| DecoderHandler.SelectionLogMembership | compressorlib/src/main/java/us/ststephens/compressorlib/DecoderHandler.kt:69-96 | An action is logged exactly when it belongs to the attempt on a candidate at or before the chosen one (or on any candidate when none is chosen). |
| DecoderHandler.SelectionLogOrdered | compressorlib/src/main/java/us/ststephens/compressorlib/DecoderHandler.kt:69-96 | The log takes the candidates one at a time in list order: an action on a later candidate never precedes an action on an earlier one. |
| DecoderHandler.ReleasedBeforeLaterActions | compressorlib/src/main/java/us/ststephens/compressorlib/DecoderHandler.kt:84-92 | A codec that fails configuration is released before anything is done to a later candidate, and nothing is done to it after its release. |
| DecoderHandler.NoCandidateAfterChosenExamined | compressorlib/src/main/java/us/ststephens/compressorlib/DecoderHandler.kt:94-95 | Once a codec is chosen, no later candidate is examined. |
| DecoderHandler.SkippedCandidateNeverCreated | compressorlib/src/main/java/us/ststephens/compressorlib/DecoderHandler.kt:71-82 | A candidate whose capability query throws, that is unsupported or that fails to instantiate is never created or configured. |
| DecoderHandler.StartedIffChosen | compressorlib/src/main/java/us/ststephens/compressorlib/DecoderHandler.kt:94-95 | A codec is started exactly when it is the returned one. |
| DecoderHandler.CreatedCodecReleasedUnlessChosen | compressorlib/src/main/java/us/ststephens/compressorlib/DecoderHandler.kt:84-95 | Every created codec is released exactly when it is not the chosen one, and started exactly when it is; the returned codec is never released. |
| DecoderHandler.ChosenStartedLast | compressorlib/src/main/java/us/ststephens/compressorlib/DecoderHandler.kt:78-95 | A successful selection ends with the chosen codec created, configured and started, in that order. |
| DecoderHandler.ErrorResponseFor | compressorlib/src/main/java/us/ststephens/compressorlib/DecoderHandler.kt:123-130 | The three branches partition the two flags: recoverable means restart; non-recoverable and non-transient means report; non-recoverable and transient means ignore. |
| DecoderHandler.ErrorEffects | compressorlib/src/main/java/us/ststephens/compressorlib/DecoderHandler.kt:123-130 | The error callback is invoked exactly for non-recoverable, non-transient errors. A recoverable error with a decoder gives stop, configure, start in that order. Without a decoder it does nothing. A transient, non-recoverable error has no effect. |
| DecoderHandler.RecoverableErrorsNeverEscalate | compressorlib/src/main/java/us/ststephens/compressorlib/DecoderHandler.kt:124-128 | Any series of recoverable errors never reaches the error callback. Each error restarts the decoder once (three calls), or does nothing without a decoder. |
| DecoderHandler.DecoderHandler.HandleError | compressorlib/src/main/java/us/ststephens/compressorlib/DecoderHandler.kt:123-130 | The decoder session is kept, and the calls made are exactly `ErrorEffects`. |
| DecoderCallbacks.Extractor.ReadSampleData | compressorlib/src/main/java/us/ststephens/compressorlib/DecoderCallbacks.kt:45 | The read size is non-negative exactly when a sample is left under the cursor; otherwise it is -1. |
| DecoderCallbacks.Extractor.SampleTime | compressorlib/src/main/java/us/ststephens/compressorlib/DecoderCallbacks.kt:46 | The time read is that of the sample under the cursor; it is read only while a sample is left and the extractor is not released. |
| DecoderCallbacks.Extractor.SampleFlags | compressorlib/src/main/java/us/ststephens/compressorlib/DecoderCallbacks.kt:47 | The flags read are those of the sample under the cursor; they are read only while a sample is left and the extractor is not released. |
| DecoderCallbacks.Extractor.Advance | compressorlib/src/main/java/us/ststephens/compressorlib/DecoderCallbacks.kt:49 | The cursor moves one sample on, never past the end. The result says whether a sample remains. |
| DecoderCallbacks.Extractor.Release | compressorlib/src/main/java/us/ststephens/compressorlib/DecoderCallbacks.kt:52 | The extractor becomes released, with its cursor unchanged; releasing it twice is ruled out by the precondition. |
| DecoderCallbacks.FeedInput | compressorlib/src/main/java/us/ststephens/compressorlib/DecoderCallbacks.kt:41-54 | A finished extractor makes the call a no-op. The call throws exactly when the extractor is not finished and no input buffer is available; it then only fetches the buffer and changes nothing. The extractor invariant is kept. |
| DecoderCallbacks.FeedInputQueues | compressorlib/src/main/java/us/ststephens/compressorlib/DecoderCallbacks.kt:45-53 | A reading call queues the sample under the cursor (its size, time and flags) only when one is left. It then queues the empty, time-0, end-of-stream buffer exactly when the extractor runs out. |
| DecoderCallbacks.FeedInputAdvances | compressorlib/src/main/java/us/ststephens/compressorlib/DecoderCallbacks.kt:45-53 | A reading call advances the extractor whether or not a sample was queued. It sets the finished flag exactly when no sample is left. It releases the extractor exactly then, once. |
| DecoderCallbacks.FeedInputQueuesOnItsIndex | compressorlib/src/main/java/us/ststephens/compressorlib/DecoderCallbacks.kt:47-51 | The sample and the end-of-stream buffer are both queued on the index the call was given, at offset 0. |
| DecoderCallbacks.FinishedInputIsSilent | compressorlib/src/main/java/us/ststephens/compressorlib/DecoderCallbacks.kt:42 | Once the extractor is finished, any series of input callbacks changes nothing and calls nothing. |
| DecoderCallbacks.ExtractorReleasedAtMostOnce | compressorlib/src/main/java/us/ststephens/compressorlib/DecoderCallbacks.kt:42-53 | Over any series of input callbacks, the finished flag never returns to false. The extractor is released at most once, exactly when the series sets the flag. |
| DecoderCallbacks.InputQueuesSamplesThenEndOfStream | compressorlib/src/main/java/us/ststephens/compressorlib/DecoderCallbacks.kt:41-54 | Input callbacks that all get buffers queue the remaining samples in order, one per call. They queue one end-of-stream buffer exactly when they reach the end. The finished flag is set exactly then. |
| DecoderCallbacks.WholeStreamFed | compressorlib/src/main/java/us/ststephens/compressorlib/DecoderCallbacks.kt:41-54 | From a fresh extractor, enough calls queue every sample in order followed by exactly one end-of-stream buffer. They leave the extractor finished and released exactly once. |
| DecoderCallbacks.OutputEffects | compressorlib/src/main/java/us/ststephens/compressorlib/DecoderCallbacks.kt:19-38 | The output buffer is released first, exactly once, and rendered exactly when it is not codec-config and its size is not 0. More follows exactly for a non-config end-of-stream buffer: stop, release, then the encoder's end-of-input signal. |
| DecoderCallbacks.CodecConfigOnlyReleased | compressorlib/src/main/java/us/ststephens/compressorlib/DecoderCallbacks.kt:21-24 | A codec-config buffer is released unrendered and nothing else happens, even when its end-of-stream bit is set. |
| DecoderCallbacks.DecoderCallbacks.constructor | compressorlib/src/main/java/us/ststephens/compressorlib/DecoderCallbacks.kt:11-16 | Both flags start false, over an unreleased extractor. |
| DecoderCallbacks.DecoderCallbacks.OnInputBufferAvailable | compressorlib/src/main/java/us/ststephens/compressorlib/DecoderCallbacks.kt:41-54 | The callback performs exactly `FeedInput` on the extractor, the flag and the event log. It keeps the invariant, never touches `isDecoderDone`, and never resets `isExtractorFinished`. |
| DecoderCallbacks.DecoderCallbacks.OnOutputBufferAvailable | compressorlib/src/main/java/us/ststephens/compressorlib/DecoderCallbacks.kt:19-38 | The callback performs exactly `OutputEffects` and leaves the input side unchanged. `isDecoderDone` becomes true exactly on a non-config end-of-stream buffer and never returns to false. |
| DecoderCallbacks.DecoderCallbacks.OnError | compressorlib/src/main/java/us/ststephens/compressorlib/DecoderCallbacks.kt:60-62 | The exception is forwarded unchanged to the error listener, and nothing else changes. |

## Left out

- `handleMessage` and `create` (DecoderHandler.kt:37-63) are not modelled. They are the Looper message and the lock/condition handshake that publish the decoder; this is concurrency plumbing. As written, `handleMessage` calls `createDecoder()` without its format and surface arguments. The model's `DecoderHandler` is therefore built with its decoder session given.
- The `init` block (DecoderHandler.kt:29-35) opens the file, which is I/O. As written it also releases the extractor right after `setDataSource`, so the callbacks would later read a released extractor. The model does not reproduce this. Its callback constructor requires an unreleased extractor, because the platform forbids reading a released one.
- `createDecoder`'s `format` and `outputSurface` are not modelled; each candidate's behaviour with that format is its `CodecCandidate` record. `MediaCodecList` enumeration is the order of the candidate sequence.
- Exceptions thrown by `codec.start()` in `createDecoder`, and by `stop`/`configure`/`start` in `handleError`, are not modelled. The source does not catch them, and each call is one logged action. `configure()` is called without arguments at DecoderHandler.kt:126.
- `MediaFormat.getString(KEY_MIME)` returning null is not modelled: every track has a MIME string.
- `onOutputFormatChanged` (DecoderCallbacks.kt:56-58) only stores the format in a public field that nothing in these two files reads; the rendering TODO at line 29 is empty. Neither is modelled.
- Sample bytes and input-buffer capacity are not modelled: `readSampleData` yields the sample's recorded size.
- The model does not claim that nothing is rendered after `isDecoderDone`: the code does not enforce it.
- Codec instances are identified by their candidate's position in the codec list, not by object identity.
