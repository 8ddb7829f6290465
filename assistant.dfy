/** The interactive loop of `main`: one utterance per turn, typed or (in voice
    mode) recorded and transcribed; the commands "voice", "text" and the exit
    words; everything else is sent to the completion service and the reply is
    printed and spoken. The console, the recorder, the services and the
    speech back-ends are abstracted to the calls the loop makes on them. */
module Assistant {
  import opened Text
  import opened Commands
  import opened Options
  import Transcription

  /** The loop's state: running with the `voice_mode` flag, or left. */
  datatype State = Running(voiceMode: bool) | Terminated

  /** What one turn meets. `Line` carries the utterance the turn obtained
      (typed, or the transcript in voice mode) and the text the completion
      service answers if it is asked; `Interrupt` is a KeyboardInterrupt and
      `Failure` any other exception raised while the utterance is obtained. */
  datatype Event =
    | Line(utterance: string, reply: string)
    | Interrupt
    | Failure

  /** The status lines the assistant prints. */
  datatype Notice =
    | VoiceOn            // "Voice input mode activated"
    | VoiceUnavailable   // "Voice input mode is not available ... install ffmpeg"
    | TextOn             // "Text input mode activated"
    | Farewell           // "Goodbye ... It has been a pleasure assisting you."
    | ShuttingDown       // "Shutting down"
    | Difficulties       // "I seem to be experiencing technical difficulties"
    | Answer(text: string)

  /** The calls the loop makes, in order. */
  datatype Call =
    | ReadLine                  // input("\nYou: ")
    | Listen                    // print "Listening...", record_audio(), transcribe_audio(...)
    | Complete(prompt: string)  // get_jarvis_response(prompt)
    | Speak(text: string)       // speak_response(text)
    | Notify(notice: Notice)    // print a status line

  /** The state a turn leaves and the calls it made. */
  datatype Transition = Transition(next: State, calls: seq<Call>)

  /** `voice_mode = False` before the first turn. */
  const Initial: State := Running(false)

  /** How a turn obtains its utterance: it records only when voice mode is on
      and ffmpeg was found at start-up. */
  function Acquire(voiceMode: bool, ffmpegAvailable: bool): (c: Call)
    ensures c == Listen <==> voiceMode && ffmpegAvailable
    ensures c != Listen ==> c == ReadLine
  {
    if voiceMode && ffmpegAvailable then Listen else ReadLine
  }

  /** Prefixes the calls of a later transition with earlier ones. */
  function Then(earlier: seq<Call>, later: Transition): Transition
  {
    Transition(later.next, earlier + later.calls)
  }

  /** One iteration of the `while True` loop. A left loop does nothing more. */
  function Step(s: State, ffmpegAvailable: bool, e: Event): (t: Transition)
    ensures s.Terminated? ==> t.calls == [] && t.next == Terminated
    ensures s.Running? ==> |t.calls| >= 2 && t.calls[0] == Acquire(s.voiceMode, ffmpegAvailable)
    ensures t.next == Running(true) ==> ffmpegAvailable || s == Running(true)
  {
    match s
    case Terminated => Transition(Terminated, [])
    case Running(voiceMode) =>
      var acquire := Acquire(voiceMode, ffmpegAvailable);
      match e
      case Interrupt => Transition(Terminated, [acquire, Notify(ShuttingDown)])
      case Failure => Transition(s, [acquire, Notify(Difficulties)])
      case Line(utterance, reply) =>
        match Classify(Normalise(utterance))
        case SwitchToVoice =>
          if ffmpegAvailable then Transition(Running(true), [acquire, Notify(VoiceOn)])
          else Transition(s, [acquire, Notify(VoiceUnavailable)])
        case SwitchToText => Transition(Running(false), [acquire, Notify(TextOn)])
        case Leave => Transition(Terminated, [acquire, Notify(Farewell)])
        case Request =>
          Transition(s, [acquire, Complete(utterance), Notify(Answer(reply)), Speak(reply)])
  }

  /** The loop over a sequence of events: turns until the events run out or
      the loop is left. */
  function Run(s: State, ffmpegAvailable: bool, events: seq<Event>): Transition
    decreases |events|
  {
    if events == [] || s.Terminated? then Transition(s, [])
    else
      var t := Step(s, ffmpegAvailable, events[0]);
      Then(t.calls, Run(t.next, ffmpegAvailable, events[1..]))
  }

  /** A conversation is its first turn followed by the rest. */
  lemma RunFirstTurn(s: State, ffmpegAvailable: bool, events: seq<Event>)
    requires events != []
    ensures var t := Step(s, ffmpegAvailable, events[0]);
            Run(s, ffmpegAvailable, events) == Then(t.calls, Run(t.next, ffmpegAvailable, events[1..]))
  {
  }

  /** The conversation so far followed by the next turn and the rest. */
  lemma RunNextTurn(s0: State, ffmpegAvailable: bool, events: seq<Event>, done: seq<Call>,
                    s: State, i: nat)
    requires i < |events|
    requires Run(s0, ffmpegAvailable, events) == Then(done, Run(s, ffmpegAvailable, events[i..]))
    ensures var t := Step(s, ffmpegAvailable, events[i]);
            Run(s0, ffmpegAvailable, events)
            == Then(done + t.calls, Run(t.next, ffmpegAvailable, events[i + 1..]))
  {
    var t := Step(s, ffmpegAvailable, events[i]);
    var rest := Run(t.next, ffmpegAvailable, events[i + 1..]);
    assert events[i..][0] == events[i] && events[i..][1..] == events[i + 1..];
    RunFirstTurn(s, ffmpegAvailable, events[i..]);
    assert Run(s, ffmpegAvailable, events[i..]) == Then(t.calls, rest);
    assert done + (t.calls + rest.calls) == (done + t.calls) + rest.calls;
  }

  // ---------------------------------------------------------------------------
  // One turn.

  /** A turn records audio only when voice mode is on and ffmpeg is available,
      and only as its first call. */
  lemma ListensOnlyInVoiceMode(s: State, ffmpegAvailable: bool, e: Event)
    ensures var t := Step(s, ffmpegAvailable, e);
            forall k :: 0 <= k < |t.calls| && t.calls[k] == Listen
              ==> k == 0 && s == Running(true) && ffmpegAvailable
  {
  }

  /** A turn calls the completion service at most once, with the utterance
      it obtained, only when that utterance is not a command, and such a turn
      keeps the mode. */
  lemma CompletesOnlyRequests(s: State, ffmpegAvailable: bool, e: Event)
    ensures var t := Step(s, ffmpegAvailable, e);
            forall k :: 0 <= k < |t.calls| && t.calls[k].Complete?
              ==> k == 1 && e.Line? && t.calls[k].prompt == e.utterance
                  && Classify(Normalise(e.utterance)) == Request && t.next == s
  {
  }

  /** An exit word, in any case and with any padding, ends the loop after one
      farewell; nothing is sent to the completion service or spoken. */
  lemma ExitWordEndsLoop(s: State, ffmpegAvailable: bool, utterance: string, reply: string)
    requires s.Running? && Normalise(utterance) in ExitWords
    ensures Step(s, ffmpegAvailable, Line(utterance, reply))
            == Transition(Terminated, [Acquire(s.voiceMode, ffmpegAvailable), Notify(Farewell)])
  {
  }

  /** "voice" turns voice mode on when ffmpeg is available and otherwise
      leaves the mode as it was; either way nothing is sent to the service. */
  lemma VoiceCommand(s: State, ffmpegAvailable: bool, utterance: string, reply: string)
    requires s.Running? && Normalise(utterance) == "voice"
    ensures Step(s, ffmpegAvailable, Line(utterance, reply))
            == Transition(if ffmpegAvailable then Running(true) else s,
                          [Acquire(s.voiceMode, ffmpegAvailable),
                           Notify(if ffmpegAvailable then VoiceOn else VoiceUnavailable)])
  {
  }

  /** "text" turns voice mode off unconditionally; nothing is sent to the service. */
  lemma TextCommand(s: State, ffmpegAvailable: bool, utterance: string, reply: string)
    requires s.Running? && Normalise(utterance) == "text"
    ensures Step(s, ffmpegAvailable, Line(utterance, reply))
            == Transition(Running(false), [Acquire(s.voiceMode, ffmpegAvailable), Notify(TextOn)])
  {
  }

  /** Anything else is sent to the completion service exactly as obtained
      (not normalised); the reply is printed and then spoken unchanged, and
      the mode stays as it was. */
  lemma RequestPassesThrough(s: State, ffmpegAvailable: bool, utterance: string, reply: string)
    requires s.Running? && Classify(Normalise(utterance)) == Request
    ensures Step(s, ffmpegAvailable, Line(utterance, reply))
            == Transition(s, [Acquire(s.voiceMode, ffmpegAvailable), Complete(utterance),
                              Notify(Answer(reply)), Speak(reply)])
  {
  }

  /** A KeyboardInterrupt leaves the loop; any other exception is reported
      and the loop goes on in the same mode. */
  lemma ExceptionsInATurn(s: State, ffmpegAvailable: bool)
    requires s.Running?
    ensures Step(s, ffmpegAvailable, Interrupt)
            == Transition(Terminated, [Acquire(s.voiceMode, ffmpegAvailable), Notify(ShuttingDown)])
    ensures Step(s, ffmpegAvailable, Failure)
            == Transition(s, [Acquire(s.voiceMode, ffmpegAvailable), Notify(Difficulties)])
  {
  }

  /** A transcript goes through the same command checks as a typed line:
      saying "Text" (any case, any surrounding whitespace) in voice mode
      switches back to typing after one recording. */
  lemma SpokenTextSwitchesBack(l: string, w: string, r: string, reply: string)
    requires AllSpace(l) && AllSpace(r) && Lower(w) == "text"
    ensures Step(Running(true), true, Line(l + w + r, reply))
            == Transition(Running(false), [Listen, Notify(TextOn)])
  {
    CommandIgnoresCaseAndPadding(l, w, r);
  }

  /** When the recording is missing or the speech-to-text service fails, the
      apology `transcribe_audio` returns is not a command: the loop sends it to
      the completion service as if the user had said it. */
  lemma ApologyIsForwarded(path: Option<string>, onDisk: bool, service: Transcription.Service,
                           reply: string)
    requires !Transcription.ClipPresent(path, onDisk) || service.Raised? || service.OpenFailed?
    ensures var heard := Transcription.TranscribeAudio(path, onDisk, service).outcome.text;
            Step(Running(true), true, Line(heard, reply))
            == Transition(Running(true), [Listen, Complete(heard), Notify(Answer(reply)), Speak(reply)])
  {
    var heard := Transcription.TranscribeAudio(path, onDisk, service).outcome.text;
    assert heard == Transcription.CouldNotHear || heard == Transcription.CouldNotUnderstand;
    FullStopDefeatsCommand(heard);
  }

  // ---------------------------------------------------------------------------
  // Whole conversations.

  /** Without ffmpeg, voice mode is never entered and nothing is ever recorded,
      whatever the user types. */
  lemma {:induction false} NoVoiceWithoutFfmpeg(s: State, events: seq<Event>)
    requires s != Running(true)
    ensures Run(s, false, events).next != Running(true)
    ensures Listen !in Run(s, false, events).calls
    decreases |events|
  {
    if events != [] && s.Running? {
      NoVoiceWithoutFfmpeg(Step(s, false, events[0]).next, events[1..]);
    }
  }

  /** Over a whole conversation the completion service only ever receives
      utterances that are not commands. */
  lemma {:induction false} OnlyRequestsReachTheService(s: State, ffmpegAvailable: bool,
                                                       events: seq<Event>)
    ensures forall p :: Complete(p) in Run(s, ffmpegAvailable, events).calls
              ==> Classify(Normalise(p)) == Request
    decreases |events|
  {
    if events != [] && s.Running? {
      var t := Step(s, ffmpegAvailable, events[0]);
      OnlyRequestsReachTheService(t.next, ffmpegAvailable, events[1..]);
    }
  }

  /** Exceptions other than an interrupt never end the loop: a run of them
      (for instance `input()` raising at the end of standard input, every
      turn) keeps the mode and prompts again each time, without end. */
  lemma {:induction false} FailuresNeverEndTheLoop(s: State, ffmpegAvailable: bool,
                                                   events: seq<Event>)
    requires s.Running?
    requires forall k :: 0 <= k < |events| ==> events[k] == Failure
    ensures Run(s, ffmpegAvailable, events).next == s
    ensures |Run(s, ffmpegAvailable, events).calls| == 2 * |events|
    decreases |events|
  {
    if events != [] {
      FailuresNeverEndTheLoop(s, ffmpegAvailable, events[1..]);
    }
  }

  /** Is this call the farewell or the shutdown message? */
  predicate SaysGoodbye(c: Call)
  {
    c == Notify(Farewell) || c == Notify(ShuttingDown)
  }

  /** A conversation ends exactly when a goodbye is printed: it is printed at
      most once, as the very last call, and only by a conversation that ended. */
  lemma {:induction false} GoodbyeIsLast(s: State, ffmpegAvailable: bool, events: seq<Event>)
    requires s.Running?
    ensures var t := Run(s, ffmpegAvailable, events);
            (forall k :: 0 <= k < |t.calls| - 1 ==> !SaysGoodbye(t.calls[k]))
            && (t.next == Terminated <==> t.calls != [] && SaysGoodbye(t.calls[|t.calls| - 1]))
    decreases |events|
  {
    if events != [] {
      var first := Step(s, ffmpegAvailable, events[0]);
      var rest := Run(first.next, ffmpegAvailable, events[1..]);
      assert forall k :: 0 <= k < |first.calls| - 1 ==> !SaysGoodbye(first.calls[k]);
      if first.next.Running? {
        assert !SaysGoodbye(first.calls[|first.calls| - 1]);
        GoodbyeIsLast(first.next, ffmpegAvailable, events[1..]);
        var all := first.calls + rest.calls;
        assert forall k :: 0 <= k < |all| - 1 ==> !SaysGoodbye(all[k]) by {
          forall k | 0 <= k < |all| - 1
            ensures !SaysGoodbye(all[k])
          {
            if k >= |first.calls| {
              assert all[k] == rest.calls[k - |first.calls|];
            }
          }
        }
        if rest.calls != [] {
          assert all[|all| - 1] == rest.calls[|rest.calls| - 1];
        }
      } else {
        assert rest == Transition(Terminated, []);
      }
    }
  }

  // ---------------------------------------------------------------------------
  // The loop as written.

  /** The body of `main` from `voice_mode = False` on, run over `events`:
      mutates the voice-mode flag turn by turn and records the calls it makes,
      leaving with `break` on an exit word or an interrupt. It does exactly
      what `Run` says. */
  method Converse(ffmpegAvailable: bool, events: seq<Event>)
    returns (voiceMode: bool, left: bool, calls: seq<Call>)
    ensures Run(Initial, ffmpegAvailable, events)
            == Transition(if left then Terminated else Running(voiceMode), calls)
    ensures !ffmpegAvailable ==> !voiceMode
  {
    voiceMode := false;
    left := false;
    calls := [];
    for i := 0 to |events|
      invariant !left
      invariant !ffmpegAvailable ==> !voiceMode
      invariant Run(Initial, ffmpegAvailable, events)
                == Then(calls, Run(Running(voiceMode), ffmpegAvailable, events[i..]))
    {
      ghost var before := calls;
      ghost var turn := Step(Running(voiceMode), ffmpegAvailable, events[i]);
      RunNextTurn(Initial, ffmpegAvailable, events, before, Running(voiceMode), i);
      var acquire := if voiceMode && ffmpegAvailable then Listen else ReadLine;
      match events[i]
      case Interrupt =>
        calls := calls + [acquire, Notify(ShuttingDown)];
        left := true;
        assert calls == before + turn.calls && turn.next == Terminated;
        break;
      case Failure =>
        calls := calls + [acquire, Notify(Difficulties)];
        assert calls == before + turn.calls && turn.next == Running(voiceMode);
      case Line(utterance, reply) =>
        var command := Normalise(utterance);
        if command == "voice" {
          if ffmpegAvailable {
            voiceMode := true;
            calls := calls + [acquire, Notify(VoiceOn)];
          } else {
            calls := calls + [acquire, Notify(VoiceUnavailable)];
          }
          assert calls == before + turn.calls && turn.next == Running(voiceMode);
          continue;
        } else if command == "text" {
          voiceMode := false;
          calls := calls + [acquire, Notify(TextOn)];
          assert calls == before + turn.calls && turn.next == Running(voiceMode);
          continue;
        } else if command in ExitWords {
          calls := calls + [acquire, Notify(Farewell)];
          left := true;
          assert calls == before + turn.calls && turn.next == Terminated;
          break;
        }
        calls := calls + [acquire, Complete(utterance), Notify(Answer(reply)), Speak(reply)];
        assert calls == before + turn.calls && turn.next == Running(voiceMode);
    }
  }
}
