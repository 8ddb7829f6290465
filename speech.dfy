/** `speak_response` and the cloud attempt it makes first
    (`speak_response_elevenlabs`): which speech back-ends are tried, with what
    text, and what the dispatcher reports. Network, player and OS speech
    commands are abstracted to their outcomes. */
module Speech {
  import opened Options
  import opened Text

  /** The speech back-ends the dispatcher can use. */
  datatype Backend =
    | ElevenLabs   // the cloud text-to-speech service
    | Say          // macOS `say`
    | Espeak       // `espeak` on other POSIX systems
    | Sapi         // the Windows SAPI voice object

  /** One use of a back-end and the text it was given. */
  datatype Synthesis = Synthesis(backend: Backend, text: string)

  /** What `speak_response` did: the back-ends it tried, in order, and what it returned. */
  datatype SpeechReport = SpeechReport(attempts: seq<Synthesis>, spoken: bool)

  /** The host, as Python reports it: `os.name` and `sys.platform`. */
  datatype Host = Host(osName: string, platform: string)

  /** The HTTP status the cloud service must answer with for its audio to be played. */
  const StatusOk: int := 200

  /** What the cloud request does. */
  datatype CloudReply =
    | Unreachable                                  // requests.post raised
    | Answered(status: int, playbackRaises: bool)  // playbackRaises: once the temporary file exists, writing it or starting ffplay raised

  /** One cloud attempt: whether it reports success, and whether the
      temporary `.mp3` file it created is still on disk afterwards. */
  datatype CloudAttempt = CloudAttempt(success: bool, tempFileLeft: bool)

  /** The API key is set and non-empty (Python truthiness). */
  predicate KeyConfigured(key: Option<string>)
  {
    key.Some? && key.value != ""
  }

  /** The cloud attempt as written: the temporary file is removed only after
      playback returns, so an exception while writing or playing it skips the
      removal. */
  function SpeakElevenLabsAsWritten(reply: CloudReply): (a: CloudAttempt)
    ensures a.success <==> reply == Answered(StatusOk, false)
    ensures a.tempFileLeft <==> reply == Answered(StatusOk, true)
  {
    match reply
    case Unreachable => CloudAttempt(false, false)
    case Answered(status, playbackRaises) =>
      if status != StatusOk then CloudAttempt(false, false)
      else if playbackRaises then CloudAttempt(false, true)
      else CloudAttempt(true, false)
  }

  /** With a successful response and a player that cannot be started, the
      temporary audio file stays behind. */
  lemma AsWrittenLeaksTempFile()
    ensures SpeakElevenLabsAsWritten(Answered(StatusOk, true)) == CloudAttempt(false, true)
  {
  }

  /** The cloud attempt with the removal done on every path (as in a
      `finally` block): the same success value, and no file left behind. */
  function SpeakElevenLabs(reply: CloudReply): (a: CloudAttempt)
    ensures a.success <==> reply == Answered(StatusOk, false)
    ensures !a.tempFileLeft
  {
    match reply
    case Unreachable => CloudAttempt(false, false)
    case Answered(status, playbackRaises) =>
      CloudAttempt(status == StatusOk && !playbackRaises, false)
  }

  /** The cleaned-up attempt differs from the written one only in the file it leaves. */
  lemma CleanupKeepsSuccess(reply: CloudReply)
    ensures SpeakElevenLabs(reply).success == SpeakElevenLabsAsWritten(reply).success
  {
  }

  /** The OS speech back-end for a host: `say` on POSIX hosts whose platform
      name contains "darwin", `espeak` on other POSIX hosts, SAPI elsewhere. */
  function NativeBackend(host: Host): (b: Backend)
    ensures b != ElevenLabs
    ensures b == Say <==> host.osName == "posix" && exists i :: OccursAt(host.platform, "darwin", i)
    ensures b == Espeak <==> host.osName == "posix" && !exists i :: OccursAt(host.platform, "darwin", i)
    ensures b == Sapi <==> host.osName != "posix"
  {
    if host.osName == "posix" then
      if Contains(host.platform, "darwin") then Say else Espeak
    else Sapi
  }

  /** `speak_response(text)`: the cloud back-end first, and only when a key is
      configured; the OS back-end if that is skipped or fails.
      `fallbackRaises` says whether the OS back-end raises. */
  function SpeakResponse(text: string, key: Option<string>, cloud: CloudReply, host: Host,
                         fallbackRaises: bool): (r: SpeechReport)
    ensures forall k :: 0 <= k < |r.attempts| ==> r.attempts[k].text == text
    ensures |r.attempts| == (if KeyConfigured(key) then 1 else 0)
                            + (if KeyConfigured(key) && SpeakElevenLabs(cloud).success then 0 else 1)
    ensures r.attempts[0].backend == ElevenLabs <==> KeyConfigured(key)
    ensures forall k :: 0 < k < |r.attempts| ==> r.attempts[k].backend != ElevenLabs
    ensures KeyConfigured(key) && SpeakElevenLabs(cloud).success
            ==> r == SpeechReport([Synthesis(ElevenLabs, text)], true)
    ensures !(KeyConfigured(key) && SpeakElevenLabs(cloud).success)
            ==> r.attempts[|r.attempts| - 1] == Synthesis(NativeBackend(host), text)
                && r.spoken == !fallbackRaises
  {
    var primary := if KeyConfigured(key) then [Synthesis(ElevenLabs, text)] else [];
    if KeyConfigured(key) && SpeakElevenLabs(cloud).success then
      SpeechReport(primary, true)
    else
      SpeechReport(primary + [Synthesis(NativeBackend(host), text)], !fallbackRaises)
  }

  /** Without a key the cloud service is never contacted and exactly one OS
      back-end speaks the text. */
  lemma NoKeyGoesStraightToNative(text: string, key: Option<string>, cloud: CloudReply, host: Host,
                                  fallbackRaises: bool)
    requires !KeyConfigured(key)
    ensures SpeakResponse(text, key, cloud, host, fallbackRaises)
            == SpeechReport([Synthesis(NativeBackend(host), text)], !fallbackRaises)
  {
  }

  /** The dispatcher reports failure only when the OS back-end was reached and raised. */
  lemma FailsOnlyWhenFallbackRaises(text: string, key: Option<string>, cloud: CloudReply, host: Host,
                                    fallbackRaises: bool)
    ensures !SpeakResponse(text, key, cloud, host, fallbackRaises).spoken
            <==> fallbackRaises && !(KeyConfigured(key) && SpeakElevenLabs(cloud).success)
  {
  }
}
