/** The commands the interactive loop recognises in what the user says. */
module Commands {
  import opened Text

  /** What one utterance asks the loop to do. */
  datatype Command =
    | SwitchToVoice   // "voice"
    | SwitchToText    // "text"
    | Leave           // one of the exit words
    | Request         // anything else: a question for the assistant

  /** The exit words, in the order the loop lists them. */
  const ExitWords: seq<string> := ["exit", "quit", "goodbye", "bye"]

  /** Classifies an already normalised utterance. The loop tests "voice"
      first, then "text", then the exit words; everything else is a request. */
  function Classify(normalised: string): (c: Command)
    ensures c == SwitchToVoice <==> normalised == "voice"
    ensures c == SwitchToText <==> normalised == "text"
    ensures c == Leave <==> normalised in ExitWords
    ensures c == Request <==> normalised != "voice" && normalised != "text" && normalised !in ExitWords
  {
    if normalised == "voice" then SwitchToVoice
    else if normalised == "text" then SwitchToText
    else if normalised in ExitWords then Leave
    else Request
  }

  /** Every command word is a non-empty lower-case word without padding. */
  lemma CommandWordsAreTrimmed(w: string)
    requires Classify(w) != Request
    ensures w != [] && Trimmed(w)
  {
  }

  /** A command is recognised whatever its letter case and whatever whitespace
      surrounds it: "  VoIcE\n" switches to voice, " BYE " leaves. */
  lemma CommandIgnoresCaseAndPadding(l: string, w: string, r: string)
    requires AllSpace(l) && AllSpace(r)
    requires Classify(Lower(w)) != Request
    ensures Classify(Normalise(l + w + r)) == Classify(Lower(w))
  {
    CommandWordsAreTrimmed(Lower(w));
    LowerKeepsSpaces(w);
    NormaliseIgnoresPadding(l, w, r);
  }

  /** No command word ends in a full stop. */
  lemma CommandWordsHaveNoStop(n: string)
    requires n != [] && n[|n| - 1] == '.'
    ensures Classify(n) == Request
  {
  }

  /** Only whitespace and letter case are forgiven: an utterance that ends in
      a full stop, as speech-to-text services commonly produce ("Text."), is
      never one of the commands and goes to the assistant as a request. */
  lemma FullStopDefeatsCommand(u: string)
    requires u != [] && u[|u| - 1] == '.'
    ensures Classify(Normalise(u)) == Request
  {
    var s := Lower(u);
    LowerPointwise(u);
    assert s[|s| - 1] == '.';
    assert !IsSpace('.');
    var t := StripStart(s);
    StripStartSpec(s);
    assert s == s[..|s| - |t|] + t;
    assert t != [] && t[|t| - 1] == '.';
    assert StripEnd(t) == t;
    CommandWordsHaveNoStop(t);
  }
}
