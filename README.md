# JARVIS assistant loop: a Dafny model

`jarvis.py` is a command-line assistant. Each turn it takes one utterance, either a typed line or, in voice mode, a clip recorded with ffmpeg and transcribed by a speech-to-text service. It recognises the commands `voice`, `text` and the exit words `exit`, `quit`, `goodbye` and `bye`. Everything else goes to a chat-completion service, and the reply is printed and spoken. Speech tries the ElevenLabs cloud service first, when an API key is configured. Otherwise, or when the cloud attempt fails, it falls back to the OS speech command for the host.

This project models the decision logic of that script. Every external service, executable and file-system call is replaced by its outcome:

- `Text`: the Python string operations the loop relies on. `lower()` is limited to ASCII. `strip()` uses Python's `str.isspace` character set. Substring `in` is also modelled.
- `Commands`: classification of a normalised utterance into a command or a request.
- `Transcription`: `transcribe_audio`, with its two fallback apologies and its removal of the recorded clip.
- `Speech`: `speak_response`, which picks the back-ends to try and what to return, and the cloud attempt it makes first.
- `Assistant`: the loop in `main`. It is modelled twice. `Step` and `Run` are the specification: a three-state machine with the states running in text mode, running in voice mode, and terminated. `Converse` is the loop as written: a `for` loop with `break` and `continue` that mutates the voice-mode flag and records every call it makes. Its postcondition says it computes exactly what `Run` computes.
- `Options`: an `Option` type for Python's `None`.

Each turn of the loop is given as an event:
- `Line(utterance, reply)` carries the utterance the turn obtained and the text the completion service would answer.
- `Interrupt` is a KeyboardInterrupt.
- `Failure` is any other exception.

The loop's observable behaviour is the sequence of calls it makes: reading a line, recording and transcribing, calling the completion service, speaking, and printing a status line.

## Model

| member | source | states |
|---|---|---|
| `Text.IsSpace` | jarvis.py:194 | definition of Python's `str.isspace` for one character, the whitespace `strip()` removes; its use is stated by `Text.StripSpec` |
| `Text.LowerChar` | jarvis.py:194 | ASCII upper-case letters map to their lower-case letter; every other character is unchanged |
| `Text.Lower` | jarvis.py:194 | `lower()` keeps the length of the string |
| `Text.LowerPointwise` | jarvis.py:194 | `lower()` maps each character independently, by `LowerChar` |
| `Text.LowerAppend` | jarvis.py:194 | `lower()` distributes over concatenation |
| `Text.LowerKeepsSpaces` | jarvis.py:194 | `lower()` neither creates nor removes whitespace, so it leaves a trimmed string trimmed and an all-whitespace string unchanged |
| `Text.StripStartSpec` | jarvis.py:194 | the left half of `strip()` removes a whitespace-only prefix and stops at the first non-whitespace character |
| `Text.StripEndSpec` | jarvis.py:194 | the right half of `strip()` removes a whitespace-only suffix and stops at the last non-whitespace character |
| `Text.Strip` | jarvis.py:194 | definition of `strip()`; its properties are stated by `Text.StripSpec`, `Text.StripPadded` |
| `Text.Normalise` | jarvis.py:194 | definition of `user_input.lower().strip()`; its properties are stated by `Text.NormaliseIgnoresPadding`, `Commands.CommandIgnoresCaseAndPadding`, `Commands.FullStopDefeatsCommand` |
| `Text.StripSpec` | jarvis.py:194 | `strip()` returns the slice of its input between the leading and trailing whitespace; the result is trimmed, and it is empty exactly when the input is all whitespace |
| `Text.StripStartSkipsSpaces` | jarvis.py:194 | leading whitespace does not affect the result of the left strip |
| `Text.StripEndSkipsSpaces` | jarvis.py:194 | trailing whitespace does not affect the result of the right strip |
| `Text.StripPadded` | jarvis.py:194 | stripping a trimmed word surrounded by whitespace returns that word |
| `Text.NormaliseIgnoresPadding` | jarvis.py:194 | `lower().strip()` of a trimmed word with any whitespace padding is the lower-case word |
| `Text.Contains` | jarvis.py:150 | Python's `pattern in s` holds exactly when some slice of `s` equals the pattern |
| `Commands.Classify` | jarvis.py:194-207 | each command is recognised exactly when the normalised utterance equals its word ("voice", "text", or one of the four exit words); every other utterance is a request |
| `Commands.CommandWordsAreTrimmed` | jarvis.py:194-205 | every command word is non-empty and has no surrounding whitespace |
| `Commands.CommandIgnoresCaseAndPadding` | jarvis.py:194-205 | a command word in any letter case, padded with any whitespace, is classified as that command |
| `Commands.CommandWordsHaveNoStop` | jarvis.py:194-205 | a normalised utterance that ends in "." is a request |
| `Commands.FullStopDefeatsCommand` | jarvis.py:188-205 | an utterance that ends in a full stop (such as a transcript "Text.") is never a command and goes to the completion service |
| `Transcription.ClipPresent` | jarvis.py:53 | definition of the guard: the path is neither `None` nor empty and exists on disk; its use is stated by `Transcription.TranscribeAudio`, `Transcription.ApologiesAreDistinct` |
| `Transcription.TranscribeAudioAsWritten` | jarvis.py:51-70 | with no path, an empty path, or a missing file, the result is "I couldn't hear that properly." and the service is not called; if opening the clip raises, the result is "I couldn't understand that properly." and the service is not called; otherwise the service is called once and the result is its transcript, or "I couldn't understand that properly." if it raised an `Exception`; a KeyboardInterrupt during the upload propagates, and exactly then the clip is left on disk |
| `Transcription.InterruptLeavesClip` | jarvis.py:56-70 | an interrupt while an existing clip is uploaded propagates and leaves the clip behind |
| `Transcription.TranscribeAudio` | jarvis.py:51-70 | the corrected function: the same outcomes as the function as written, and the clip is never left on disk |
| `Transcription.CleanupKeepsOutcome` | jarvis.py:51-70 | the correction changes neither the outcome nor whether the service is called; it changes the clip left behind only after an interrupt during the upload |
| `Transcription.ApologiesAreDistinct` | jarvis.py:53-70 | when opening or transcribing the clip raises, the apology differs from the "couldn't hear" one exactly when the guard found a clip |
| `Speech.SpeakElevenLabsAsWritten` | jarvis.py:113-138 | the cloud attempt succeeds exactly on status 200 with playback that does not raise; the temporary file stays on disk exactly when status is 200 and saving or playback raised |
| `Speech.AsWrittenLeaksTempFile` | jarvis.py:118-138 | status 200 followed by a playback exception returns failure and leaves the temporary file behind |
| `Speech.SpeakElevenLabs` | jarvis.py:113-138 | the corrected cloud attempt has the same success condition and never leaves the temporary file |
| `Speech.CleanupKeepsSuccess` | jarvis.py:116-138 | the correction does not change what the cloud attempt reports |
| `Speech.NativeBackend` | jarvis.py:148-157 | `say` exactly on POSIX hosts whose platform contains "darwin", `espeak` exactly on other POSIX hosts, SAPI exactly on non-POSIX hosts, and never the cloud service |
| `Speech.KeyConfigured` | jarvis.py:142 | definition of the truthiness test on the API key; its use is stated by `Speech.SpeakResponse`, `Speech.NoKeyGoesStraightToNative` |
| `Speech.SpeakResponse` | jarvis.py:140-162 | every back-end receives the text unchanged; the cloud service is tried first, only when the key is non-empty, and at most once; a successful cloud attempt ends the call with success; otherwise exactly one OS back-end, chosen by the host, is tried last, and the result is false only when it raises |
| `Speech.NoKeyGoesStraightToNative` | jarvis.py:142-153 | without a key the cloud service is never contacted, and only the host's OS back-end speaks |
| `Speech.FailsOnlyWhenFallbackRaises` | jarvis.py:142-162 | `speak_response` returns false exactly when the cloud attempt did not succeed and the OS back-end raised |
| `Assistant.Acquire` | jarvis.py:185-191 | a turn records and transcribes exactly when voice mode is on and ffmpeg is available; otherwise it reads a typed line |
| `Assistant.Step` | jarvis.py:183-220 | a terminated loop makes no calls; a running turn begins with the acquisition its mode allows and makes at least one more call; voice mode is entered only with ffmpeg available |
| `Assistant.ListensOnlyInVoiceMode` | jarvis.py:185-191 | within a turn, recording happens only as the first call, and only when voice mode is on and ffmpeg is available |
| `Assistant.CompletesOnlyRequests` | jarvis.py:193-213 | a turn calls the completion service at most once, as its second call, with the raw utterance, only for a non-command, and the mode is unchanged |
| `Assistant.ExitWordEndsLoop` | jarvis.py:205-207 | an exit word terminates the loop after one farewell, with no completion or speech call |
| `Assistant.VoiceCommand` | jarvis.py:194-200 | "voice" turns voice mode on when ffmpeg is available and otherwise keeps the mode; the loop continues with a notice and no completion call |
| `Assistant.TextCommand` | jarvis.py:201-204 | "text" turns voice mode off unconditionally; the loop continues with no completion call |
| `Assistant.RequestPassesThrough` | jarvis.py:209-213 | a non-command sends the raw, un-normalised utterance to the completion service, prints the reply, and speaks exactly that reply; the mode is unchanged |
| `Assistant.ExceptionsInATurn` | jarvis.py:215-220 | an interrupt terminates the loop with the shutdown message; any other exception prints the difficulties message and keeps the state |
| `Assistant.SpokenTextSwitchesBack` | jarvis.py:185-204 | a transcript that reads "text" in any case and padding passes through the same checks and switches voice mode off after one recording |
| `Assistant.ApologyIsForwarded` | jarvis.py:185-213 | in voice mode, a missing clip or a failed transcription sends the apology text to the completion service as a request |
| `Assistant.Run` | jarvis.py:183-220 | definition of the `while True` loop over a sequence of turns; its properties are stated by `Assistant.NoVoiceWithoutFfmpeg`, `Assistant.OnlyRequestsReachTheService`, `Assistant.FailuresNeverEndTheLoop`, `Assistant.GoodbyeIsLast`, `Assistant.Converse` |
| `Assistant.RunNextTurn` | jarvis.py:183-220 | the calls made so far, then the next turn, then the remaining turns, make up the whole conversation |
| `Assistant.NoVoiceWithoutFfmpeg` | jarvis.py:181-200 | without ffmpeg, starting from text mode, no sequence of turns reaches voice mode or records anything |
| `Assistant.OnlyRequestsReachTheService` | jarvis.py:183-213 | over a whole conversation, the completion service only ever receives utterances that are not commands |
| `Assistant.FailuresNeverEndTheLoop` | jarvis.py:218-220 | any number of non-interrupt exceptions leaves the state unchanged, with two calls per turn |
| `Assistant.GoodbyeIsLast` | jarvis.py:205-217 | the farewell or shutdown message is printed at most once, only as the last call, and exactly when the conversation ended |
| `Assistant.Converse` | jarvis.py:181-220 | the imperative loop, starting with voice mode off, ends in the state and with the calls that `Run` gives for the same events; without ffmpeg it ends with voice mode off |

## Findings

| source | as written | input that shows it | evidently intended | confidence | as-written member | corrected member |
|---|---|---|---|---|---|---|
| jarvis.py:118-138 | the temporary `.mp3` file is removed only after `ffplay` returns; an exception from writing the file or starting `ffplay` jumps to the handler, which returns `False` without removing it | `ELEVENLABS_API_KEY` set, the service answers 200, and `ffplay` is not installed, so starting it raises `FileNotFoundError` | the file is removed on every path, as `record_audio` and `transcribe_audio` do in their handlers | high (by reading; not executed) | `Speech.SpeakElevenLabsAsWritten`, `Speech.AsWrittenLeaksTempFile` | `Speech.SpeakElevenLabs` (used by `Speech.SpeakResponse`) |
| jarvis.py:56-70 | the clip is removed after a transcript and in the `except Exception` handler; a KeyboardInterrupt is not an `Exception`, so an interrupt during the upload skips both removals and propagates to the loop | voice mode, a clip recorded, and Ctrl-C pressed while the upload is in progress | the clip is removed on every exit path, including an interrupt | medium (by reading; not executed) | `Transcription.TranscribeAudioAsWritten`, `Transcription.InterruptLeavesClip` | `Transcription.TranscribeAudio` (used by `Assistant.ApologyIsForwarded`) |

## Notes on the model

- A failed cloud attempt (any status other than 200, or a transport error) does not make `speak_response` return false. The function returns what the OS fallback does: true unless the fallback raises. `Speech.FailsOnlyWhenFallbackRaises` states this as the code has it.
- In voice mode the transcript goes through the same checks as a typed line. Speech-to-text services usually end a sentence with a full stop, and "Text." is not the command `text` (`Commands.FullStopDefeatsCommand`). Switching back by voice therefore only works when the transcript has no trailing punctuation.
- A failed or missing recording is not a special case in the loop. The apology text is sent to the completion service as if the user had said it (`Assistant.ApologyIsForwarded`).
- The help text lists `exit`, `quit` and `bye`. The loop also accepts `goodbye`.
- At the end of standard input, `input()` raises `EOFError` on every turn. That is an `Exception`, not an interrupt, so the loop prints the difficulties message and prompts again forever (jarvis.py:191, 218-220). `Assistant.FailuresNeverEndTheLoop` states that no run of such failures changes the state.

## Left out

- Console I/O (`print`, `input`): typed lines arrive as events. Printed lines are recorded as `Notify` calls, except the banner, the help text, the "You said:" echo and the error details. The "Listening... (speak now)" line is part of the `Listen` call, with `record_audio` and `transcribe_audio`.
- The recording itself (`record_audio`, ffmpeg with `avfoundation`, 16 kHz mono, 5 seconds): it is an external executable. Its outcome appears as the transcript in a `Line` event, or as the path and existence inputs of `Transcription.TranscribeAudio`.
- The ffmpeg probe (`check_dependencies`): its result is the `ffmpegAvailable` parameter. Exceptions other than `FileNotFoundError` escape it at start-up; that path is not modelled.
- The completion service (`get_jarvis_response`), including its persona prompt and its fallback apology: its answer is the `reply` carried by a `Line` event.
- The speech services and commands: the ElevenLabs request, the `ffplay` player, `say`, `espeak` and SAPI become the outcomes `CloudReply` and `fallbackRaises`. Voice settings, headers, the voice identity and the printing of error bodies are not modelled.
- `Assistant.Step`: every interrupt and exception is placed at the start of a turn, before any completion or speech call. In the source, a KeyboardInterrupt raised during the completion or speech call of a request also ends the loop, after those calls were made.
- `Transcription.TranscribeAudio`: it does not model `os.remove` itself raising. In the source that exception would escape from the handler to the loop.
- `Text.LowerChar`: it lowers only ASCII letters. Python's `lower()` also maps non-ASCII letters, and in a few cases changes the length of the string. The model can therefore differ from Python only on utterances that contain non-ASCII letters.
- Loading the API keys from the environment and `.env`: the key is the `key` parameter of `Speech.SpeakResponse`.
