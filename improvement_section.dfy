/** The improvement panel: the feedback box and its submit guard around the page's
    improvement request. */
module ImprovementSection {
  import opened Text

  class ImprovementBox {
    var improvementText: string
    var isImproving: bool

    constructor()
      ensures improvementText == "" && !isImproving
    {
      improvementText, isImproving := "", false;
    }

    /** The submit button is enabled only for non-blank feedback while nothing is being
        generated or improved. */
    predicate SubmitEnabled(isGenerating: bool)
      reads this
    {
      Trim(improvementText) != "" && !isGenerating && !isImproving
    }

    /** Typing into the box, which is disabled while anything is being generated or
        improved. */
    method Edit(v: string, isGenerating: bool)
      modifies this`improvementText
      ensures improvementText == if isGenerating || isImproving then old(improvementText) else v
    {
      if !isGenerating && !isImproving {
        improvementText := v;
      }
    }

    /** `handleSubmit` up to its `await`: blank feedback, or a submission already in progress,
        makes it a no-op; otherwise the trimmed feedback goes to the page and the box is
        marked as improving. */
    method BeginSubmit() returns (feedback: Option<string>)
      modifies this`isImproving
      ensures Trim(improvementText) == "" || old(isImproving) ==>
        feedback == None && isImproving == old(isImproving)
      ensures Trim(improvementText) != "" && !old(isImproving) ==>
        feedback == Some(Trim(improvementText)) && isImproving
    {
      var t := Trim(improvementText);
      if t == "" || isImproving {
        feedback := None;
      } else {
        feedback, isImproving := Some(t), true;
      }
    }

    /** `handleSubmit` after its `await`: the box is cleared only when the page's handler
        resolved, and the improving mark is dropped either way. */
    method EndSubmit(resolved: bool)
      requires isImproving
      modifies this`improvementText, this`isImproving
      ensures !isImproving
      ensures improvementText == if resolved then "" else old(improvementText)
    {
      if resolved {
        improvementText, isImproving := "", false;
      } else {
        isImproving := false;
      }
    }

    /** A whole submission: the feedback that reaches the page, and the box afterwards. The
        improving mark is down again at the end, whatever the outcome. */
    method Submit(resolved: bool) returns (feedback: Option<string>)
      modifies this`improvementText, this`isImproving
      ensures feedback.Some? <==> Trim(old(improvementText)) != "" && !old(isImproving)
      ensures feedback.Some? ==> feedback.value == Trim(old(improvementText))
      ensures feedback.Some? ==> !isImproving && improvementText == (if resolved then "" else old(improvementText))
      ensures feedback.None? ==> isImproving == old(isImproving) && improvementText == old(improvementText)
    {
      feedback := BeginSubmit();
      if feedback.Some? {
        EndSubmit(resolved);
      }
    }

    /** A click on the submit button, which is disabled unless `SubmitEnabled`: the
        submission starts exactly when the button is enabled. */
    method Click(isGenerating: bool) returns (feedback: Option<string>)
      modifies this`isImproving
      ensures feedback.Some? <==> old(SubmitEnabled(isGenerating))
      ensures feedback.Some? ==> feedback.value == Trim(improvementText) && isImproving
      ensures feedback.None? ==> isImproving == old(isImproving)
    {
      if !isGenerating {
        feedback := BeginSubmit();
      } else {
        feedback := None;
      }
    }

    /** `handleKeyDown` on the textarea, which is disabled while anything is being generated
        or improved: Enter without Shift submits. */
    method KeyDown(key: string, shiftKey: bool, isGenerating: bool) returns (feedback: Option<string>)
      modifies this`isImproving
      ensures key == "Enter" && !shiftKey && Trim(improvementText) != "" && !isGenerating && !old(isImproving) ==>
        feedback == Some(Trim(improvementText)) && isImproving
      ensures !(key == "Enter" && !shiftKey && Trim(improvementText) != "" && !isGenerating && !old(isImproving)) ==>
        feedback == None && isImproving == old(isImproving)
      ensures feedback.Some? ==> old(SubmitEnabled(isGenerating))
    {
      if key == "Enter" && !shiftKey && !isGenerating {
        feedback := BeginSubmit();
      } else {
        feedback := None;
      }
    }
  }
}
