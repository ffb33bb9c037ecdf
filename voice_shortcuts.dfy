/** The global keyboard shortcuts of the voice button: Ctrl or Cmd with Shift and `V`
    toggles listening, Space stops it. */
module VoiceShortcuts {

  /** The parts of a `keydown` event the handler reads, with its target element's tag name
      and `contentEditable` value. */
  datatype KeyEvent = KeyEvent(tagName: string, contentEditable: string,
                               ctrlKey: bool, metaKey: bool, shiftKey: bool, key: string)

  datatype Callback = StartVoice | StopVoice

  /** The callbacks the handler calls, in order, and whether it cancels the browser's default
      action. */
  datatype Outcome = Outcome(calls: seq<Callback>, preventDefault: bool)

  /** The event is aimed at a text field, where the shortcuts stay out of the way. */
  predicate InTextField(e: KeyEvent) {
    e.tagName == "INPUT" || e.tagName == "TEXTAREA" || e.contentEditable == "true"
  }

  predicate IsToggle(e: KeyEvent) {
    (e.ctrlKey || e.metaKey) && e.shiftKey && e.key == "V"
  }

  /** `handleKeyDown`, given the listening flag the ref holds and the `disabled` prop. */
  function HandleKeyDown(e: KeyEvent, listening: bool, disabled: bool): Outcome {
    if InTextField(e) then Outcome([], false)
    else if IsToggle(e) && disabled then Outcome([], true)
    else
      var toggle := if IsToggle(e) then [if listening then StopVoice else StartVoice] else [];
      var space := if e.key == " " && listening then [StopVoice] else [];
      Outcome(toggle + space, IsToggle(e) || (e.key == " " && listening))
  }

  /** The decision table: nothing happens in a text field; the toggle is cancelled always,
      does nothing when disabled and otherwise stops or starts; Space stops only while
      listening, disabled or not; any other key does nothing; and never more than one
      callback fires for one event. */
  lemma {:induction false} HandleKeyDownSpec(e: KeyEvent, listening: bool, disabled: bool)
    ensures var o := HandleKeyDown(e, listening, disabled);
      && |o.calls| <= 1
      && (InTextField(e) ==> o == Outcome([], false))
      && (!InTextField(e) && IsToggle(e) ==>
            o.preventDefault && o.calls == if disabled then [] else [if listening then StopVoice else StartVoice])
      && (!InTextField(e) && e.key == " " ==>
            o == if listening then Outcome([StopVoice], true) else Outcome([], false))
      && (!IsToggle(e) && e.key != " " ==> o == Outcome([], false))
  {
    var o := HandleKeyDown(e, listening, disabled);
    if !InTextField(e) && IsToggle(e) && !disabled {
      assert e.key != " " by {
        assert e.key[0] == 'V';
      }
    }
  }

  /** The hook's state: the ref the listener reads. */
  class Shortcuts {
    var isListeningRef: bool

    constructor(isListening: bool)
      ensures isListeningRef == isListening
    {
      isListeningRef := isListening;
    }

    /** The effect that runs after a render with a new `isListening`: the ref mirrors the
        prop from then on. */
    method Sync(isListening: bool)
      modifies this`isListeningRef
      ensures isListeningRef == isListening
    {
      isListeningRef := isListening;
    }

    /** The document listener. */
    method KeyDown(e: KeyEvent, disabled: bool) returns (o: Outcome)
      ensures o == HandleKeyDown(e, isListeningRef, disabled)
      ensures |o.calls| <= 1
      ensures StartVoice in o.calls ==> !isListeningRef && !disabled
    {
      HandleKeyDownSpec(e, isListeningRef, disabled);
      o := HandleKeyDown(e, isListeningRef, disabled);
    }
  }
}
