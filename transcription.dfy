/** `transcribe_audio`: turns a recorded clip into the text of one utterance,
    degrading to a fixed apology when there is nothing to send or the
    speech-to-text service fails. The service and the file system are
    abstracted to their outcomes. */
module Transcription {
  import opened Options

  /** Returned when there is no recording to transcribe. */
  const CouldNotHear: string := "I couldn't hear that properly."
  /** Returned when opening the clip or the service raised. */
  const CouldNotUnderstand: string := "I couldn't understand that properly."

  /** What happens once the guard has passed: `open` raises before the
      service is reached (a directory, an unreadable file, or a file removed
      since the guard), or the clip is uploaded and the service answers with a
      transcript, raises an `Exception`, or a KeyboardInterrupt arrives, which
      `except Exception` does not catch. */
  datatype Service = OpenFailed | Transcribed(text: string) | Raised | Interrupted

  /** How the call ends: it returns an utterance, or the interrupt propagates
      to the caller. */
  datatype Outcome = Returned(text: string) | Propagated

  /** What one call of `transcribe_audio` produced: how it ended, whether the
      service was called, and whether the clip is still on disk afterwards. */
  datatype Transcription = Transcription(outcome: Outcome, serviceCalled: bool, clipLeft: bool)

  /** The clip is there to send: the path is truthy (neither `None` nor the
      empty string) and `os.path.exists` holds for it. */
  predicate ClipPresent(path: Option<string>, onDisk: bool)
  {
    path.Some? && path.value != "" && onDisk
  }

  /** `transcribe_audio(path)` as written, where `onDisk` is what
      `os.path.exists(path)` answers and `service` is what happens once the
      clip is opened. The clip is removed after a transcript and in the
      `except Exception` handler, so an interrupt during the upload leaves it
      on disk. */
  function TranscribeAudioAsWritten(path: Option<string>, onDisk: bool, service: Service)
    : (r: Transcription)
    ensures r.serviceCalled <==> ClipPresent(path, onDisk) && service != OpenFailed
    ensures !ClipPresent(path, onDisk) ==> r.outcome == Returned(CouldNotHear)
    ensures ClipPresent(path, onDisk) && service.Transcribed? ==> r.outcome == Returned(service.text)
    ensures ClipPresent(path, onDisk) && (service.Raised? || service.OpenFailed?)
            ==> r.outcome == Returned(CouldNotUnderstand)
    ensures r.outcome == Propagated <==> ClipPresent(path, onDisk) && service == Interrupted
    ensures r.clipLeft <==> ClipPresent(path, onDisk) && service == Interrupted
  {
    if !ClipPresent(path, onDisk) then
      // nothing on disk to remove
      Transcription(Returned(CouldNotHear), false, false)
    else
      match service
      case OpenFailed =>
        // the handler removes the clip if it still exists
        Transcription(Returned(CouldNotUnderstand), false, false)
      case Transcribed(text) =>
        // os.remove after a successful upload
        Transcription(Returned(text), true, false)
      case Raised =>
        // the clip still exists, so the handler removes it
        Transcription(Returned(CouldNotUnderstand), true, false)
      case Interrupted =>
        // neither os.remove is reached
        Transcription(Propagated, true, true)
  }

  /** An interrupt while the clip is uploaded leaves the clip behind. */
  lemma InterruptLeavesClip()
    ensures TranscribeAudioAsWritten(Some("jarvis.wav"), true, Interrupted)
            == Transcription(Propagated, true, true)
  {
  }

  /** `transcribe_audio(path)` with the clip removed on every path (as in a
      `finally` block): the same outcomes, and the clip is never left on disk. */
  function TranscribeAudio(path: Option<string>, onDisk: bool, service: Service): (r: Transcription)
    ensures r.serviceCalled <==> ClipPresent(path, onDisk) && service != OpenFailed
    ensures !ClipPresent(path, onDisk) ==> r.outcome == Returned(CouldNotHear)
    ensures ClipPresent(path, onDisk) && service.Transcribed? ==> r.outcome == Returned(service.text)
    ensures ClipPresent(path, onDisk) && (service.Raised? || service.OpenFailed?)
            ==> r.outcome == Returned(CouldNotUnderstand)
    ensures r.outcome == Propagated <==> ClipPresent(path, onDisk) && service == Interrupted
    ensures !r.clipLeft
  {
    if !ClipPresent(path, onDisk) then
      Transcription(Returned(CouldNotHear), false, false)
    else
      match service
      case OpenFailed => Transcription(Returned(CouldNotUnderstand), false, false)
      case Transcribed(text) => Transcription(Returned(text), true, false)
      case Raised => Transcription(Returned(CouldNotUnderstand), true, false)
      case Interrupted => Transcription(Propagated, true, false)
  }

  /** The cleaned-up function differs from the written one only in the clip it leaves. */
  lemma CleanupKeepsOutcome(path: Option<string>, onDisk: bool, service: Service)
    ensures var fixed := TranscribeAudio(path, onDisk, service);
            var written := TranscribeAudioAsWritten(path, onDisk, service);
            fixed.outcome == written.outcome && fixed.serviceCalled == written.serviceCalled
            && (fixed.clipLeft == written.clipLeft <==> service != Interrupted || !ClipPresent(path, onDisk))
  {
  }

  /** When opening or transcribing the clip fails, the apology tells the
      caller whether the guard found a clip: "not understood" exactly when it
      did, "nothing heard" otherwise. */
  lemma ApologiesAreDistinct(path: Option<string>, onDisk: bool, service: Service)
    requires service.Raised? || service.OpenFailed?
    ensures TranscribeAudio(path, onDisk, service).outcome != Returned(CouldNotHear)
        <==> ClipPresent(path, onDisk)
  {
  }
}
