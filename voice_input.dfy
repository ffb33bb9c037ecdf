/** The microphone button of the chat box: what a recognition session shows and which
    message it sends. `isGenerating` and `disabled` are the props of the render whose handlers
    run. The recognizer itself is outside the model: its start and stop requests are results,
    and its `onstart`, `onresult`, `onerror` and `onend` events are methods. */
module VoiceInput {
  import opened Text
  import opened SpeechResults

  class VoiceInput {
    /** A recognizer exists in this browser. */
    var hasRecognition: bool
    var isListening: bool
    var transcript: string
    /** The final text a scheduled send will use, while that timer is set. */
    var pending: Option<string>

    constructor(hasRecognition: bool)
      ensures this.hasRecognition == hasRecognition
      ensures !isListening && transcript == "" && pending == None
    {
      this.hasRecognition, isListening, transcript, pending := hasRecognition, false, "", None;
    }

    /** `onstart`. */
    method OnStart()
      modifies this`isListening, this`transcript
      ensures isListening && transcript == ""
    {
      isListening, transcript := true, "";
    }

    /** `onresult`: the transcript becomes the final text then the interim text of the visited
        results; the scheduled send is replaced by one for the new final text, or dropped when
        that text is blank. */
    method OnResult(results: seq<SpeechResult>, resultIndex: nat)
      modifies this`transcript, this`pending
      ensures var w := Window(results, resultIndex);
        && transcript == Finals(w) + Interims(w)
        && pending == if Trim(Finals(w)) != "" then Some(Finals(w)) else None
    {
      var final, interim := Partition(results, resultIndex);
      transcript, pending := final + interim, if Trim(final) != "" then Some(final) else None;
    }

    /** `handleSendVoiceMessage`: a message goes out only when it is not blank and nothing is
        being generated, and then the transcript is cleared. */
    method HandleSend(message: string, isGenerating: bool) returns (sent: Option<string>)
      modifies this`transcript
      ensures sent == if Trim(message) != "" && !isGenerating then Some(message) else None
      ensures transcript == if sent.Some? then "" else old(transcript)
    {
      if Trim(message) != "" && !isGenerating {
        sent, transcript := Some(message), "";
      } else {
        sent := None;
      }
    }

    /** The scheduled send fires: the trimmed final text goes out unless something is being
        generated. */
    method OnTimer(isGenerating: bool) returns (sent: Option<string>)
      requires pending.Some?
      modifies this`transcript, this`pending
      ensures pending == None
      ensures sent == if Trim(old(pending).value) != "" && !isGenerating then Some(Trim(old(pending).value)) else None
      ensures transcript == if sent.Some? then "" else old(transcript)
    {
      var final := pending.value;
      pending := None;
      sent := None;
      if Trim(final) != "" && !isGenerating {
        TrimIdempotent(final);
        sent := HandleSend(Trim(final), isGenerating);
      }
    }

    /** `onerror`: listening stops and the transcript is cleared, but a scheduled send is
        left to fire. */
    method OnError()
      modifies this`isListening, this`transcript
      ensures !isListening && transcript == ""
    {
      isListening, transcript := false, "";
    }

    /** `onend`: listening stops, the transcript is cleared and a scheduled send is
        cancelled. */
    method OnEnd()
      modifies this`isListening, this`transcript, this`pending
      ensures !isListening && transcript == "" && pending == None
    {
      isListening, transcript, pending := false, "", None;
    }

    /** The recognizer effect runs again because `isGenerating` changed: its cleanup cancels
        the scheduled send, and a fresh recognizer replaces the old one. Listening and the
        transcript are state of the component and are kept. */
    method GeneratingChanged()
      modifies this`pending
      ensures pending == None
    {
      pending := None;
    }

    /** `startListening`: whether the recognizer is asked to start. */
    method StartListening(isGenerating: bool, disabled: bool) returns (start: bool)
      ensures start <==> hasRecognition && !isListening && !isGenerating && !disabled
    {
      start := hasRecognition && !isListening && !isGenerating && !disabled;
    }

    /** `stopListening`: while listening, the recognizer is asked to stop, a scheduled send is
        cancelled, and the trimmed transcript goes out if it is not blank and nothing is being
        generated. Otherwise nothing happens. */
    method StopListening(isGenerating: bool) returns (stop: bool, sent: Option<string>)
      modifies this`transcript, this`pending
      ensures stop <==> hasRecognition && isListening
      ensures !stop ==> sent == None && transcript == old(transcript) && pending == old(pending)
      ensures stop ==> pending == None
      ensures stop ==> sent == if Trim(old(transcript)) != "" && !isGenerating then Some(Trim(old(transcript))) else None
      ensures sent.Some? ==> transcript == ""
      ensures stop && sent.None? ==> transcript == old(transcript)
    {
      stop, sent := false, None;
      if hasRecognition && isListening {
        stop := true;
        pending := None;
        var t := Trim(transcript);
        if t != "" && !isGenerating {
          TrimIdempotent(transcript);
          sent := HandleSend(t, isGenerating);
        }
      }
    }
  }
}
