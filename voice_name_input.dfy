/** The microphone button of the landing page, which captures the user's name: the same
    recognition session as the chat box's button, without the generation guard, with a
    one-shot recognizer and the captured name trimmed. */
module VoiceNameInput {
  import opened Text
  import opened SpeechResults

  class VoiceNameInput {
    /** A recognizer exists in this browser. */
    var hasRecognition: bool
    var isListening: bool
    var transcript: string
    /** The final text a scheduled capture will use, while that timer is set. */
    var pending: Option<string>

    constructor(hasRecognition: bool)
      ensures this.hasRecognition == hasRecognition
      ensures !isListening && transcript == "" && pending == None
    {
      this.hasRecognition, isListening, transcript, pending := hasRecognition, false, "", None;
    }

    /** `onstart`. */
    method OnStart()
      modifies this`isListening, this`transcript
      ensures isListening && transcript == ""
    {
      isListening, transcript := true, "";
    }

    /** `onresult`: the transcript becomes the final text then the interim text of the visited
        results; the scheduled capture is replaced by one for the new final text, or dropped
        when that text is blank. */
    method OnResult(results: seq<SpeechResult>, resultIndex: nat)
      modifies this`transcript, this`pending
      ensures var w := Window(results, resultIndex);
        && transcript == Finals(w) + Interims(w)
        && pending == if Trim(Finals(w)) != "" then Some(Finals(w)) else None
    {
      var final, interim := Partition(results, resultIndex);
      transcript, pending := final + interim, if Trim(final) != "" then Some(final) else None;
    }

    /** `handleNameCaptured`: a name that is not blank is passed on trimmed, and the
        transcript is cleared. */
    method HandleNameCaptured(name: string) returns (captured: Option<string>)
      modifies this`transcript
      ensures captured == if Trim(name) != "" then Some(Trim(name)) else None
      ensures transcript == if captured.Some? then "" else old(transcript)
    {
      if Trim(name) != "" {
        captured, transcript := Some(Trim(name)), "";
      } else {
        captured := None;
      }
    }

    /** The scheduled capture fires: the trimmed final text is captured. */
    method OnTimer() returns (captured: Option<string>)
      requires pending.Some?
      modifies this`transcript, this`pending
      ensures pending == None
      ensures captured == if Trim(old(pending).value) != "" then Some(Trim(old(pending).value)) else None
      ensures transcript == if captured.Some? then "" else old(transcript)
    {
      var final := pending.value;
      pending := None;
      captured := None;
      if Trim(final) != "" {
        TrimIdempotent(final);
        captured := HandleNameCaptured(Trim(final));
      }
    }

    /** `onerror`: listening stops and the transcript is cleared, but a scheduled capture is
        left to fire. */
    method OnError()
      modifies this`isListening, this`transcript
      ensures !isListening && transcript == ""
    {
      isListening, transcript := false, "";
    }

    /** `onend`: listening stops, the transcript is cleared and a scheduled capture is
        cancelled. */
    method OnEnd()
      modifies this`isListening, this`transcript, this`pending
      ensures !isListening && transcript == "" && pending == None
    {
      isListening, transcript, pending := false, "", None;
    }

    /** `startListening`: whether the recognizer is asked to start. */
    method StartListening(disabled: bool) returns (start: bool)
      ensures start <==> hasRecognition && !isListening && !disabled
    {
      start := hasRecognition && !isListening && !disabled;
    }

    /** `stopListening`: while listening, the recognizer is asked to stop, a scheduled capture
        is cancelled, and the trimmed transcript is captured if it is not blank. Otherwise
        nothing happens. */
    method StopListening() returns (stop: bool, captured: Option<string>)
      modifies this`transcript, this`pending
      ensures stop <==> hasRecognition && isListening
      ensures !stop ==> captured == None && transcript == old(transcript) && pending == old(pending)
      ensures stop ==> pending == None
      ensures stop ==> captured == if Trim(old(transcript)) != "" then Some(Trim(old(transcript))) else None
      ensures captured.Some? ==> transcript == ""
      ensures stop && captured.None? ==> transcript == old(transcript)
    {
      stop, captured := false, None;
      if hasRecognition && isListening {
        stop := true;
        pending := None;
        var t := Trim(transcript);
        if t != "" {
          TrimIdempotent(transcript);
          captured := HandleNameCaptured(t);
        }
      }
    }
  }
}
