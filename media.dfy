/** Values shared by the decoder handler and its codec callbacks: the platform
    types that the adapter only passes around, reduced to the parts it reads. */
module Media {

  /** Kotlin's nullable reference (`T?`). */
  datatype Option<T> = None | Some(value: T)

  /** A track format as returned by the extractor. Only the MIME string is
      inspected; every other key is carried along untouched. */
  datatype MediaFormat = MediaFormat(mime: string, params: map<string, int>)

  /** A codec error: the adapter reads only its two severity flags. */
  datatype CodecException = CodecException(diagnosticInfo: string, isRecoverable: bool, isTransient: bool)

  /** Buffer flag bits of the platform codec (a 32-bit `Int` in the source). */
  type BufferFlags = bv32

  const BufferFlagCodecConfig: BufferFlags := 2
  const BufferFlagEndOfStream: BufferFlags := 4

  predicate HasFlag(flags: BufferFlags, bit: BufferFlags)
  {
    flags & bit != 0
  }
}
